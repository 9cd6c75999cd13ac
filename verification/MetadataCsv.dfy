/** Rows of metadata and reading them back into one ordered dictionary of lists per file
    (worker/worker/clientScripts/json_metadata_to_csv.py, archivematicaCreateMETSMetadataCSV.py,
    worker/worker/utils/archivematicaFunctions.py). */
module MetadataCsv {
  import opened Text
  import opened MetadataRows

  // ---------------------------------------------------------------- object_to_row

  function At(index: map<string, nat>, k: string): nat {
    if k in index then index[k] else 0
  }

  function Item(items: seq<Cell>, i: nat): Cell {
    if i < |items| then items[i] else None
  }

  /** The cell for a header, and what is left of the object and of the positions in its lists. */
  function CellOf(row: Object, index: map<string, nat>, k: string): Cell {
    if k !in row then None
    else if row[k].Many? then Item(row[k].items, At(index, k))
    else row[k].cell
  }

  /** A scalar is used only once. */
  function RowAfter(row: Object, k: string): Object {
    if k in row && row[k].Scalar? then row - {k} else row
  }

  function IndexAfter(row: Object, index: map<string, nat>, k: string): map<string, nat> {
    if k in row && row[k].Many? then index[k := At(index, k) + 1] else index
  }

  function RowOf(row: Object, index: map<string, nat>, headers: seq<string>): seq<Cell>
    decreases |headers|
  {
    if headers == [] then []
    else
      [CellOf(row, index, headers[0])]
      + RowOf(RowAfter(row, headers[0]), IndexAfter(row, index, headers[0]), headers[1..])
  }

  method ObjectToRow(object0: Object, headers: seq<string>) returns (ret: seq<Cell>, row: Object)
    ensures ret == RowOf(object0, map[], headers)
  {
    row, ret := object0, [];
    var index: map<string, nat> := map[];
    var i := 0;
    while i < |headers|
      invariant i <= |headers| && RowOf(object0, map[], headers) == ret + RowOf(row, index, headers[i..])
    {
      var header := headers[i];
      RowStep(ret, row, index, headers, i);
      if header !in row {
        ret := ret + [None];
      } else if row[header].Many? {
        var items, idx := row[header].items, At(index, header);
        ret := ret + [if idx < |items| then items[idx] else None];
        index := index[header := idx + 1];
      } else {
        ret := ret + [row[header].cell];
        row := row - {header};
      }
      i := i + 1;
    }
  }

  lemma RowStep(ret: seq<Cell>, row: Object, index: map<string, nat>, headers: seq<string>, i: nat)
    requires i < |headers|
    ensures var k := headers[i];
            ret + RowOf(row, index, headers[i..])
            == ret + [CellOf(row, index, k)] + RowOf(RowAfter(row, k), IndexAfter(row, index, k), headers[i + 1..])
  {
    assert headers[i..][1..] == headers[i + 1..];
  }

  /** What stands under the copies of one key. */
  function Block(value: Option<Value>, from: nat, n: nat): seq<Cell>
    decreases n
  {
    if n == 0 then []
    else
      match value
      case None => [None] + Block(None, from, n - 1)
      case Some(Scalar(cell)) => [cell] + Block(None, from, n - 1)
      case Some(Many(items)) => [Item(items, from)] + Block(value, from + 1, n - 1)
  }

  function Get<V>(o: map<string, V>, k: string): Option<V> {
    if k in o then Some(o[k]) else None
  }

  predicate SameFor(keys: seq<string>, a: Object, b: Object) {
    forall k | k in keys :: Get(a, k) == Get(b, k)
  }

  /** The row as the blocks of the keys, each read from the whole object. */
  function Blocks(o: Object, keys: seq<string>, counts: map<string, nat>): seq<Cell> {
    if keys == [] then [] else Block(Get(o, keys[0]), 0, Width(counts, keys[0])) + Blocks(o, keys[1..], counts)
  }

  /** The copies of a key leave a state that has changed for that key only. */
  lemma {:induction false} RowOverCopies(row: Object, index: map<string, nat>, k: string, n: nat, rest: seq<string>)
    returns (left: Object, positions: map<string, nat>)
    ensures RowOf(row, index, Repeat(k, n) + rest)
            == Block(Get(row, k), At(index, k), n) + RowOf(left, positions, rest)
    ensures forall x | x != k :: Get(left, x) == Get(row, x) && At(positions, x) == At(index, x)
    decreases n
  {
    if n == 0 {
      left, positions := row, index;
      assert Repeat(k, n) + rest == rest;
    } else {
      assert Repeat(k, n) + rest == [k] + (Repeat(k, n - 1) + rest);
      left, positions := RowOverCopies(RowAfter(row, k), IndexAfter(row, index, k), k, n - 1, rest);
      BlockStep(row, index, k, n);
    }
  }

  lemma BlockStep(row: Object, index: map<string, nat>, k: string, n: nat)
    requires n > 0
    ensures Block(Get(row, k), At(index, k), n)
            == [CellOf(row, index, k)] + Block(Get(RowAfter(row, k), k), At(IndexAfter(row, index, k), k), n - 1)
  {
  }

  lemma {:induction false} RowIsBlocks(
    row: Object, index: map<string, nat>, o: Object, keys: seq<string>, counts: map<string, nat>)
    requires Distinct(keys) && SameFor(keys, row, o) && forall k | k in keys :: At(index, k) == 0
    ensures RowOf(row, index, Spread(keys, counts)) == Blocks(o, keys, counts)
    decreases |keys|
  {
    if keys != [] {
      var rest := Spread(keys[1..], counts);
      var left, positions := RowOverCopies(row, index, keys[0], Width(counts, keys[0]), rest);
      forall k | k in keys[1..] ensures Get(left, k) == Get(o, k) && At(positions, k) == 0 {
        assert k in keys && k != keys[0];
      }
      RowIsBlocks(left, positions, o, keys[1..], counts);
      assert keys[0] in keys;
    }
  }

  lemma {:induction false} BlocksSize(o: Object, keys: seq<string>, counts: map<string, nat>)
    ensures |Blocks(o, keys, counts)| == |Spread(keys, counts)|
  {
    if keys != [] {
      BlockSize(Get(o, keys[0]), 0, Width(counts, keys[0]), keys[0]);
      BlocksSize(o, keys[1..], counts);
    }
  }

  lemma {:induction false} BlockSize(value: Option<Value>, from: nat, n: nat, k: string)
    ensures |Block(value, from, n)| == n == |Repeat(k, n)|
    decreases n
  {
    if n > 0 {
      match value
      case None => BlockSize(None, from, n - 1, k);
      case Some(Scalar(_)) => BlockSize(None, from, n - 1, k);
      case Some(Many(_)) => BlockSize(value, from + 1, n - 1, k);
    }
  }

  /** A row has a cell for every column of the header. */
  lemma RowFitsHeader(objects: seq<Object>, o: Object)
    ensures |RowOf(o, map[], Header(objects))| == |Header(objects)|
  {
    var keys := Ordered(AllKeys(objects));
    OrderedHolds(AllKeys(objects));
    RowIsBlocks(o, map[], o, keys, Counts(objects));
    BlocksSize(o, keys, Counts(objects));
  }

  // ---------------------------------------------------------------- the CSV file

  function Written(cell: Cell): string {
    if cell.Some? then cell.value else ""
  }

  function WrittenAll(cells: seq<Cell>): seq<string> {
    if cells == [] then [] else [Written(cells[0])] + WrittenAll(cells[1..])
  }

  function RowsOf(objects: seq<Object>, header: seq<string>): seq<seq<string>> {
    if objects == [] then []
    else [WrittenAll(RowOf(objects[0], map[], header))] + RowsOf(objects[1..], header)
  }

  method WriteCsv(objects: seq<Object>) returns (header: seq<string>, rows: seq<seq<string>>)
    ensures header == Header(objects) && rows == RowsOf(objects, header)
  {
    header := FetchKeys(objects);
    rows := [];
    var i := 0;
    while i < |objects|
      invariant i <= |objects| && RowsOf(objects, header) == rows + RowsOf(objects[i..], header)
    {
      assert objects[i..][1..] == objects[i + 1..];
      var cells, _ := ObjectToRow(objects[i], header);
      rows := rows + [WrittenAll(cells)];
      i := i + 1;
    }
  }

  // ---------------------------------------------------------------- parseMetadataCSV

  /** An ordered dictionary of lists. */
  datatype Group = Group(key: string, values: seq<string>)

  type Groups = seq<Group>

  /** Adding a value appends it to the list of its key; empty values are ignored. */
  function Added(groups: Groups, k: string, v: string): Groups {
    if v == "" then groups
    else if groups == [] then [Group(k, [v])]
    else if groups[0].key == k then [groups[0].(values := groups[0].values + [v])] + groups[1..]
    else [groups[0]] + Added(groups[1..], k, v)
  }

  /** Over the pairs of two lists, as long as the shorter. */
  function AddedAll(groups: Groups, header: seq<string>, row: seq<string>): Groups
    decreases |header|
  {
    if header == [] || row == [] then groups else AddedAll(Added(groups, header[0], row[0]), header[1..], row[1..])
  }

  predicate IsBlank(c: char) {
    c == ' ' || '\t' <= c <= '\r'
  }

  function StripLeft(s: string): string {
    if s != "" && IsBlank(s[0]) then StripLeft(s[1..]) else s
  }

  function StripRight(s: string): string {
    if s != "" && IsBlank(s[|s| - 1]) then StripRight(s[..|s| - 1]) else s
  }

  function Strip(s: string): string {
    StripRight(StripLeft(s))
  }

  function StripAll(keys: seq<string>): seq<string> {
    if keys == [] then [] else [Strip(keys[0])] + StripAll(keys[1..])
  }

  function Tail<T>(s: seq<T>): seq<T> {
    if s == [] then [] else s[1..]
  }

  /** The last row of a file name decides. */
  function Parsed(metadata: map<string, Groups>, header: seq<string>, rows: seq<seq<string>>): map<string, Groups>
    decreases |rows|
  {
    if rows == [] then metadata
    else if rows[0] == [] then Parsed(metadata, header, rows[1..])
    else
      Parsed(metadata[RStripSlashes(rows[0][0]) := AddedAll([], header, rows[0][1..])], header, rows[1..])
  }

  method ParseMetadataCsv(columns: seq<string>, rows: seq<seq<string>>) returns (metadata: map<string, Groups>)
    ensures metadata == Parsed(map[], StripAll(Tail(columns)), rows)
  {
    metadata := map[];
    var header := StripAll(Tail(columns));
    var i := 0;
    while i < |rows|
      invariant i <= |rows| && Parsed(map[], header, rows) == Parsed(metadata, header, rows[i..])
    {
      assert rows[i..][0] == rows[i] && rows[i..][1..] == rows[i + 1..];
      if rows[i] != [] {
        var filename := RStripSlashes(rows[i][0]);
        var values := Zipped(header, rows[i][1..]);
        metadata := metadata[filename := values];
      }
      i := i + 1;
    }
  }

  method Zipped(header: seq<string>, row: seq<string>) returns (groups: Groups)
    ensures groups == AddedAll([], header, row)
  {
    groups := [];
    var j := 0;
    while j < |header| && j < |row|
      invariant j <= |header| && j <= |row|
      invariant AddedAll([], header, row) == AddedAll(groups, header[j..], row[j..])
    {
      assert header[j..][1..] == header[j + 1..] && row[j..][1..] == row[j + 1..];
      groups := Added(groups, header[j], row[j]);
      j := j + 1;
    }
  }

  // ---------------------------------------------------------------- the round trip

  /** The values an object holds under a key, in order, as they are written. */
  function ListOf(value: Option<Value>): seq<string> {
    match value
    case None => []
    case Some(Scalar(cell)) => [Written(cell)]
    case Some(Many(items)) => WrittenAll(items)
  }

  function NonEmpty(values: seq<string>): seq<string> {
    if values == [] then []
    else if values[0] == "" then NonEmpty(values[1..])
    else [values[0]] + NonEmpty(values[1..])
  }

  /** The group of a key, if it has values. */
  function OneGroup(k: string, values: seq<string>): Groups {
    if values == [] then [] else [Group(k, values)]
  }

  /** What should be known about an object: the non-empty values of each key that has any. */
  function Meaning(o: Object, keys: seq<string>): Groups {
    if keys == [] then [] else OneGroup(keys[0], NonEmpty(ListOf(Get(o, keys[0])))) + Meaning(o, keys[1..])
  }

  function LookUp(groups: Groups, k: string): seq<string> {
    if groups == [] then [] else if groups[0].key == k then groups[0].values else LookUp(groups[1..], k)
  }

  lemma {:induction false} MeaningHolds(o: Object, keys: seq<string>, k: string)
    requires Distinct(keys)
    ensures LookUp(Meaning(o, keys), k) == if k in keys then NonEmpty(ListOf(Get(o, k))) else []
  {
    if keys != [] {
      MeaningHolds(o, keys[1..], k);
      var values := NonEmpty(ListOf(Get(o, keys[0])));
      var rest := Meaning(o, keys[1..]);
      assert ([Group(keys[0], values)] + rest)[1..] == rest;
      assert [] + rest == rest;
    }
  }

  predicate Fresh(groups: Groups, k: string) {
    groups == [] || (groups[0].key != k && Fresh(groups[1..], k))
  }

  lemma {:induction false} AddedFresh(groups: Groups, k: string, values: seq<string>, v: string)
    requires Fresh(groups, k) && v != ""
    ensures Added(groups + OneGroup(k, values), k, v) == groups + [Group(k, values + [v])]
  {
    if groups == [] {
      assert groups + OneGroup(k, values) == OneGroup(k, values);
      if values == [] {
        assert values + [v] == [v];
      } else {
        assert OneGroup(k, values)[1..] == [];
      }
    } else {
      AddedFresh(groups[1..], k, values, v);
      assert (groups + OneGroup(k, values))[1..] == groups[1..] + OneGroup(k, values);
    }
  }

  function Extended(values: seq<string>, v: string): seq<string> {
    if v == "" then values else values + [v]
  }

  lemma AddedStep(groups: Groups, k: string, values: seq<string>, v: string, header: seq<string>, row: seq<string>)
    requires Fresh(groups, k)
    ensures AddedAll(groups + OneGroup(k, values), [k] + header, [v] + row)
            == AddedAll(groups + OneGroup(k, Extended(values, v)), header, row)
  {
    assert ([k] + header)[1..] == header && ([v] + row)[1..] == row;
    if v != "" {
      AddedFresh(groups, k, values, v);
    }
  }

  lemma ExtendedAll(values: seq<string>, cells: seq<string>)
    requires cells != []
    ensures values + NonEmpty(cells) == Extended(values, cells[0]) + NonEmpty(cells[1..])
  {
  }

  /** The cells under the copies of one key gather in its list. */
  lemma {:induction false} AddedCopies(
    groups: Groups, k: string, values: seq<string>, cells: seq<string>, header: seq<string>, row: seq<string>)
    requires Fresh(groups, k)
    ensures AddedAll(groups + OneGroup(k, values), Repeat(k, |cells|) + header, cells + row)
            == AddedAll(groups + OneGroup(k, values + NonEmpty(cells)), header, row)
    decreases |cells|
  {
    if cells == [] {
      assert Repeat(k, 0) + header == header && cells + row == row && values + NonEmpty(cells) == values;
    } else {
      CopiesStep(k, cells, header, row);
      AddedStep(groups, k, values, cells[0], Repeat(k, |cells| - 1) + header, cells[1..] + row);
      AddedCopies(groups, k, Extended(values, cells[0]), cells[1..], header, row);
      ExtendedAll(values, cells);
    }
  }

  lemma CopiesStep(k: string, cells: seq<string>, header: seq<string>, row: seq<string>)
    requires cells != []
    ensures Repeat(k, |cells|) + header == [k] + (Repeat(k, |cells| - 1) + header)
    ensures cells + row == [cells[0]] + (cells[1..] + row)
  {
  }

  lemma {:induction false} WrittenConcat(a: seq<Cell>, b: seq<Cell>)
    ensures WrittenAll(a + b) == WrittenAll(a) + WrittenAll(b)
  {
    if a == [] {
      assert a + b == b;
    } else {
      assert (a + b)[1..] == a[1..] + b;
      WrittenConcat(a[1..], b);
    }
  }

  lemma {:induction false} WrittenSize(cells: seq<Cell>)
    ensures |WrittenAll(cells)| == |cells|
  {
    if cells != [] {
      WrittenSize(cells[1..]);
    }
  }

  /** Enough copies hold all the values of a list. */
  lemma {:induction false} BlockHolds(value: Option<Value>, from: nat, n: nat)
    requires value.Some? && value.value.Many? ==> |value.value.items| <= from + n
    requires value.Some? && value.value.Scalar? ==> n > 0
    ensures var cells := NonEmpty(WrittenAll(Block(value, from, n)));
            cells == if value.Some? && value.value.Many? && from <= |value.value.items|
                     then NonEmpty(WrittenAll(value.value.items[from..]))
                     else if value.Some? && value.value.Many? then [] else NonEmpty(ListOf(value))
    decreases n
  {
    if n > 0 {
      var cells := Block(value, from, n);
      match value
      case None =>
        BlockHolds(None, from, n - 1);
        assert cells[1..] == Block(None, from, n - 1);
      case Some(Scalar(cell)) =>
        BlockHolds(None, from, n - 1);
        assert cells[1..] == Block(None, from, n - 1);
        assert ListOf(value)[1..] == [];
      case Some(Many(items)) =>
        BlockHolds(value, from + 1, n - 1);
        assert cells[1..] == Block(value, from + 1, n - 1);
        if from < |items| {
          assert items[from..][1..] == items[from + 1..];
        } else if from == |items| {
          assert items[from..] == [];
        }
    }
  }

  /** The header has room for the lists of the object. */
  predicate Fits(o: Object, keys: seq<string>, counts: map<string, nat>) {
    forall k | k in keys && k in o && o[k].Many? :: |o[k].items| <= Width(counts, k)
  }

  predicate FreshAll(groups: Groups, keys: seq<string>) {
    forall k | k in keys :: Fresh(groups, k)
  }

  lemma {:induction false} FreshStays(groups: Groups, k: string, g: Group)
    requires Fresh(groups, k) && g.key != k
    ensures Fresh(groups + [g], k)
  {
    if groups != [] {
      assert (groups + [g])[1..] == groups[1..] + [g];
      FreshStays(groups[1..], k, g);
    } else {
      assert groups + [g] == [g] && [g][1..] == [];
    }
  }

  lemma {:induction false} BlocksRead(groups: Groups, o: Object, keys: seq<string>, counts: map<string, nat>)
    requires Distinct(keys) && FreshAll(groups, keys) && Fits(o, keys, counts)
    ensures AddedAll(groups, Spread(keys, counts), WrittenAll(Blocks(o, keys, counts))) == groups + Meaning(o, keys)
    decreases |keys|
  {
    if keys != [] {
      var k := keys[0];
      assert k in keys;
      var rest := Blocks(o, keys[1..], counts);
      WrittenConcat(Block(Get(o, k), 0, Width(counts, k)), rest);
      KeyRead(groups, o, k, Width(counts, k), Spread(keys[1..], counts), WrittenAll(rest));
      var values := NonEmpty(ListOf(Get(o, k)));
      FreshRest(groups, keys, values);
      BlocksRead(groups + OneGroup(k, values), o, keys[1..], counts);
      MeaningStep(groups, o, keys);
    }
  }

  lemma FreshRest(groups: Groups, keys: seq<string>, values: seq<string>)
    requires Distinct(keys) && keys != [] && FreshAll(groups, keys)
    ensures FreshAll(groups + OneGroup(keys[0], values), keys[1..])
  {
    forall x | x in keys[1..] ensures Fresh(groups + OneGroup(keys[0], values), x) {
      assert x in keys && groups + [] == groups;
      if values != [] {
        FreshStays(groups, x, Group(keys[0], values));
      }
    }
  }

  lemma MeaningStep(groups: Groups, o: Object, keys: seq<string>)
    requires keys != []
    ensures groups + Meaning(o, keys)
            == (groups + OneGroup(keys[0], NonEmpty(ListOf(Get(o, keys[0]))))) + Meaning(o, keys[1..])
  {
  }

  lemma KeyRead(groups: Groups, o: Object, k: string, n: nat, header: seq<string>, row: seq<string>)
    requires Fresh(groups, k) && n > 0 && (k in o && o[k].Many? ==> |o[k].items| <= n)
    ensures AddedAll(groups, Repeat(k, n) + header, WrittenAll(Block(Get(o, k), 0, n)) + row)
            == AddedAll(groups + OneGroup(k, NonEmpty(ListOf(Get(o, k)))), header, row)
  {
    var block := Block(Get(o, k), 0, n);
    BlockSize(Get(o, k), 0, n, k);
    WrittenSize(block);
    AddedCopies(groups, k, [], WrittenAll(block), header, row);
    BlockRead(o, k, n);
    assert [] + NonEmpty(WrittenAll(block)) == NonEmpty(WrittenAll(block));
    assert groups + OneGroup(k, []) == groups;
  }

  lemma BlockRead(o: Object, k: string, n: nat)
    requires n > 0 && (k in o && o[k].Many? ==> |o[k].items| <= n)
    ensures NonEmpty(WrittenAll(Block(Get(o, k), 0, n))) == NonEmpty(ListOf(Get(o, k)))
  {
    BlockHolds(Get(o, k), 0, n);
    if k in o && o[k].Many? {
      assert o[k].items[0..] == o[k].items;
    }
  }

  // ---------------------------------------------------------------- whole files

  lemma {:induction false} LongestHolds(objects: seq<Object>, o: Object, k: string)
    requires o in objects && k in o && o[k].Many?
    ensures k in AllKeys(objects) && HasList(objects, k) && |o[k].items| <= Longest(objects, k)
  {
    var front, last := objects[..|objects| - 1], objects[|objects| - 1];
    if o in front {
      LongestHolds(front, o, k);
    } else {
      assert o == last;
      LongestListed(front, k);
    }
  }

  lemma ObjectsFit(objects: seq<Object>, o: Object)
    requires o in objects
    ensures Fits(o, Ordered(AllKeys(objects)), Counts(objects))
  {
    forall k | k in o && o[k].Many? ensures |o[k].items| <= Width(Counts(objects), k) {
      LongestHolds(objects, o, k);
    }
  }

  /** The name a row is filed under. */
  function FileOf(o: Object, first: string): string {
    RStripSlashes(Written(CellOf(o, map[], first)))
  }

  lemma {:induction false} StripNothing(keys: seq<string>)
    requires forall k | k in keys :: Strip(k) == k
    ensures StripAll(keys) == keys
  {
    if keys != [] {
      StripNothing(keys[1..]);
    }
  }

  lemma {:induction false} SpreadFrom(keys: seq<string>, counts: map<string, nat>, k: string)
    requires k in Spread(keys, counts)
    ensures k in keys
  {
    if keys != [] && k !in Spread(keys[1..], counts) {
      RepeatHolds(keys[0], Width(counts, keys[0]), k);
    } else if keys != [] {
      SpreadFrom(keys[1..], counts, k);
    }
  }

  lemma {:induction false} RepeatHolds(x: string, n: nat, k: string)
    ensures k in Repeat(x, n) ==> k == x
  {
    if n > 0 {
      RepeatHolds(x, n - 1, k);
    }
  }

  /** One object's row reads back as the name and the meaning of the object. */
  lemma RowReadsBack(o: Object, keys: seq<string>, counts: map<string, nat>)
    requires keys != [] && Distinct(keys) && Fits(o, keys, counts) && Width(counts, keys[0]) == 1
    ensures var row := WrittenAll(RowOf(o, map[], Spread(keys, counts)));
            && row != [] && RStripSlashes(row[0]) == FileOf(o, keys[0])
            && AddedAll([], Spread(keys[1..], counts), row[1..]) == Meaning(o, keys[1..])
  {
    RowIsBlocks(o, map[], o, keys, counts);
    var block, rest := Block(Get(o, keys[0]), 0, 1), Blocks(o, keys[1..], counts);
    assert Block(Get(o, keys[0]), 0, 1) == [CellOf(o, map[], keys[0])] by {
      BlockStep(o, map[], keys[0], 1);
    }
    assert block + rest == [block[0]] + rest && (block + rest)[1..] == rest;
    BlocksRead([], o, keys[1..], counts);
    assert [] + Meaning(o, keys[1..]) == Meaning(o, keys[1..]);
  }

  /** The last object with the name. */
  function LastNamed(objects: seq<Object>, first: string, file: string): Option<Object> {
    if objects == [] then None
    else
      match LastNamed(objects[1..], first, file)
      case Some(o) => Some(o)
      case None => if FileOf(objects[0], first) == file then Some(objects[0]) else None
  }

  lemma {:induction false} RowsReadBack(
    metadata: map<string, Groups>, objects: seq<Object>, keys: seq<string>, counts: map<string, nat>, file: string)
    requires keys != [] && Distinct(keys) && Width(counts, keys[0]) == 1
    requires forall o | o in objects :: Fits(o, keys, counts)
    ensures var parsed := Parsed(metadata, Spread(keys[1..], counts), RowsOf(objects, Spread(keys, counts)));
            var last := LastNamed(objects, keys[0], file);
            Get(parsed, file)
            == if last.Some? then Some(Meaning(last.value, keys[1..])) else Get(metadata, file)
    decreases |objects|
  {
    if objects != [] {
      var o := objects[0];
      RowReadsBack(o, keys, counts);
      var rows := RowsOf(objects, Spread(keys, counts));
      assert rows[1..] == RowsOf(objects[1..], Spread(keys, counts));
      RowsReadBack(metadata[FileOf(o, keys[0]) := Meaning(o, keys[1..])], objects[1..], keys, counts, file);
    }
  }

  // ---------------------------------------------------------------- any keys

  /** The non-empty cells under one heading. */
  function Under(header: seq<string>, row: seq<string>, k: string): seq<string>
    decreases |header|
  {
    if header == [] || row == [] then []
    else (if header[0] == k && row[0] != "" then [row[0]] else []) + Under(header[1..], row[1..], k)
  }

  lemma {:induction false} LookUpAdded(groups: Groups, x: string, v: string, k: string)
    ensures LookUp(Added(groups, x, v), k) == LookUp(groups, k) + if x == k && v != "" then [v] else []
  {
    if v != "" && groups == [] {
      assert [Group(x, [v])][1..] == [];
    } else if v != "" && groups[0].key == x {
      assert Added(groups, x, v)[1..] == groups[1..];
    } else if v != "" {
      LookUpAdded(groups[1..], x, v, k);
      assert Added(groups, x, v)[1..] == Added(groups[1..], x, v);
    }
  }

  lemma {:induction false} LookUpAll(groups: Groups, header: seq<string>, row: seq<string>, k: string)
    ensures LookUp(AddedAll(groups, header, row), k) == LookUp(groups, k) + Under(header, row, k)
    decreases |header|
  {
    if header != [] && row != [] {
      LookUpAdded(groups, header[0], row[0], k);
      LookUpAll(Added(groups, header[0], row[0]), header[1..], row[1..], k);
      SeqAssoc(
        LookUp(groups, k), if header[0] == k && row[0] != "" then [row[0]] else [], Under(header[1..], row[1..], k));
    }
  }

  lemma {:induction false} UnderConcat(a: seq<string>, b: seq<string>, c: seq<string>, d: seq<string>, k: string)
    requires |a| == |c|
    ensures Under(a + b, c + d, k) == Under(a, c, k) + Under(b, d, k)
  {
    if a == [] {
      assert a + b == b && c + d == d;
    } else {
      assert (a + b)[1..] == a[1..] + b && (c + d)[1..] == c[1..] + d;
      UnderConcat(a[1..], b, c[1..], d, k);
    }
  }

  lemma {:induction false} StripConcat(a: seq<string>, b: seq<string>)
    ensures StripAll(a + b) == StripAll(a) + StripAll(b) && |StripAll(a)| == |a|
  {
    if a == [] {
      assert a + b == b;
    } else {
      assert (a + b)[1..] == a[1..] + b;
      StripConcat(a[1..], b);
    }
  }

  /** The copies of one key, stripped. */
  lemma {:induction false} UnderCopies(x: string, cells: seq<string>, k: string)
    ensures Under(StripAll(Repeat(x, |cells|)), cells, k) == if Strip(x) == k then NonEmpty(cells) else []
    decreases |cells|
  {
    if cells != [] {
      assert Repeat(x, |cells|)[1..] == Repeat(x, |cells| - 1);
      UnderCopies(x, cells[1..], k);
    }
  }

  /** The values of an object under all keys that are the same but for white space at their ends, in order. */
  function ValuesUnder(o: Object, keys: seq<string>, k: string): seq<string> {
    if keys == [] then []
    else (if Strip(keys[0]) == k then NonEmpty(ListOf(Get(o, keys[0]))) else []) + ValuesUnder(o, keys[1..], k)
  }

  lemma {:induction false} BlocksUnder(o: Object, keys: seq<string>, counts: map<string, nat>, k: string)
    requires Fits(o, keys, counts)
    ensures Under(StripAll(Spread(keys, counts)), WrittenAll(Blocks(o, keys, counts)), k) == ValuesUnder(o, keys, k)
  {
    if keys != [] {
      var x, n := keys[0], Width(counts, keys[0]);
      assert x in keys;
      var block, rest := Block(Get(o, x), 0, n), Blocks(o, keys[1..], counts);
      BlocksUnder(o, keys[1..], counts, k);
      WrittenConcat(block, rest);
      StripConcat(Repeat(x, n), Spread(keys[1..], counts));
      BlockSize(Get(o, x), 0, n, x);
      WrittenSize(block);
      UnderConcat(
        StripAll(Repeat(x, n)), StripAll(Spread(keys[1..], counts)), WrittenAll(block), WrittenAll(rest), k);
      UnderCopies(x, WrittenAll(block), k);
      BlockRead(o, x, n);
    }
  }

  /** What the first column leaves of the list under its key: its first item is the name. */
  function Others(value: Option<Value>): seq<string> {
    if value.Some? && value.value.Many? && value.value.items != [] then NonEmpty(WrittenAll(value.value.items[1..]))
    else []
  }

  /** What should be recorded of an object under a heading. */
  function Recorded(o: Object, keys: seq<string>, k: string): seq<string>
    requires keys != []
  {
    (if Strip(keys[0]) == k then Others(Get(o, keys[0])) else []) + ValuesUnder(o, keys[1..], k)
  }

  lemma FirstBlock(value: Option<Value>, n: nat)
    requires n > 0 && (value.Some? && value.value.Many? ==> |value.value.items| <= n)
    ensures |Block(value, 0, n)| == n && NonEmpty(WrittenAll(Block(value, 0, n)[1..])) == Others(value)
  {
    BlockSize(value, 0, n, "");
    var tail := Block(value, 0, n)[1..];
    if value.Some? && value.value.Many? {
      assert tail == Block(value, 1, n - 1);
      BlockHolds(value, 1, n - 1);
    } else {
      assert tail == Block(None, 1, n - 1) by {
        BlockOfNone(0, 1, n - 1);
      }
      BlockHolds(None, 1, n - 1);
    }
  }

  lemma {:induction false} BlockOfNone(i: nat, j: nat, n: nat)
    ensures Block(None, i, n) == Block(None, j, n)
  {
    if n > 0 {
      BlockOfNone(i, j, n - 1);
    }
  }

  /** The first cell of a row and the others. */
  lemma RowCut(o: Object, keys: seq<string>, counts: map<string, nat>)
    requires keys != [] && Distinct(keys)
    ensures var block := Block(Get(o, keys[0]), 0, Width(counts, keys[0]));
            && block != []
            && WrittenAll(RowOf(o, map[], Spread(keys, counts)))
               == [Written(CellOf(o, map[], keys[0]))]
                  + (WrittenAll(block[1..]) + WrittenAll(Blocks(o, keys[1..], counts)))
  {
    RowIsBlocks(o, map[], o, keys, counts);
    var block, rest := Block(Get(o, keys[0]), 0, Width(counts, keys[0])), Blocks(o, keys[1..], counts);
    BlockStep(o, map[], keys[0], Width(counts, keys[0]));
    WrittenCut(CellOf(o, map[], keys[0]), block, rest);
  }

  lemma WrittenCut(cell: Cell, block: seq<Cell>, rest: seq<Cell>)
    requires block != [] && block[0] == cell
    ensures WrittenAll(block + rest) == [Written(cell)] + (WrittenAll(block[1..]) + WrittenAll(rest))
  {
    assert (block + rest)[1..] == block[1..] + rest;
    WrittenConcat(block[1..], rest);
  }

  lemma HeaderCut(keys: seq<string>, counts: map<string, nat>)
    requires keys != []
    ensures Tail(Spread(keys, counts)) == Repeat(keys[0], Width(counts, keys[0]) - 1) + Spread(keys[1..], counts)
  {
    TailCut(keys[0], Repeat(keys[0], Width(counts, keys[0]) - 1), Spread(keys[1..], counts));
  }

  lemma TailCut<T>(x: T, a: seq<T>, b: seq<T>)
    ensures Tail(([x] + a) + b) == a + b
  {
  }

  /** One object's row gives its name, and under every heading what should be recorded. */
  lemma RowRecords(o: Object, keys: seq<string>, counts: map<string, nat>, k: string)
    requires keys != [] && Distinct(keys) && Fits(o, keys, counts)
    ensures var row, header := WrittenAll(RowOf(o, map[], Spread(keys, counts))), StripAll(Tail(Spread(keys, counts)));
            && row != [] && RStripSlashes(row[0]) == FileOf(o, keys[0])
            && LookUp(AddedAll([], header, row[1..]), k) == Recorded(o, keys, k)
  {
    RowCut(o, keys, counts);
    HeaderCut(keys, counts);
    var block := Block(Get(o, keys[0]), 0, Width(counts, keys[0]));
    assert keys[0] in keys;
    FirstBlock(Get(o, keys[0]), Width(counts, keys[0]));
    WrittenSize(block[1..]);
    RestUnder(o, keys, counts, block[1..], k);
  }

  lemma RestUnder(o: Object, keys: seq<string>, counts: map<string, nat>, cells: seq<Cell>, k: string)
    requires keys != [] && Fits(o, keys, counts) && |WrittenAll(cells)| == |cells|
    requires NonEmpty(WrittenAll(cells)) == Others(Get(o, keys[0]))
    ensures LookUp(
              AddedAll(
                [], StripAll(Repeat(keys[0], |cells|) + Spread(keys[1..], counts)),
                WrittenAll(cells) + WrittenAll(Blocks(o, keys[1..], counts))),
              k)
            == Recorded(o, keys, k)
  {
    var copies, header := Repeat(keys[0], |cells|), Spread(keys[1..], counts);
    var own, rest := WrittenAll(cells), WrittenAll(Blocks(o, keys[1..], counts));
    StripConcat(copies, header);
    LookUpAll([], StripAll(copies + header), own + rest, k);
    assert LookUp([], k) == [];
    assert |copies| == |cells| by {
      RepeatSize(keys[0], |cells|);
    }
    UnderConcat(StripAll(copies), StripAll(header), own, rest, k);
    UnderCopies(keys[0], own, k);
    BlocksUnder(o, keys[1..], counts, k);
  }

  lemma {:induction false} RepeatSize(x: string, n: nat)
    ensures |Repeat(x, n)| == n
  {
    if n > 0 {
      RepeatSize(x, n - 1);
    }
  }

  lemma {:induction false} RowsRecorded(
    metadata: map<string, Groups>, objects: seq<Object>, keys: seq<string>, counts: map<string, nat>, file: string,
    k: string)
    requires keys != [] && Distinct(keys)
    requires forall o | o in objects :: Fits(o, keys, counts)
    ensures var header := Spread(keys, counts);
            var parsed := Parsed(metadata, StripAll(Tail(header)), RowsOf(objects, header));
            var last := LastNamed(objects, keys[0], file);
            && (file in parsed <==> last.Some? || file in metadata)
            && (last.Some? ==> LookUp(parsed[file], k) == Recorded(last.value, keys, k))
            && (last.None? && file in metadata ==> parsed[file] == metadata[file])
    decreases |objects|
  {
    if objects != [] {
      var o, header := objects[0], Spread(keys, counts);
      RowRecords(o, keys, counts, k);
      var rows := RowsOf(objects, header);
      assert rows[1..] == RowsOf(objects[1..], header);
      RowsRecorded(
        metadata[FileOf(o, keys[0]) := AddedAll([], StripAll(Tail(header)), rows[0][1..])], objects[1..], keys, counts,
        file, k);
    }
  }

  /** Objects without keys leave empty rows, which are skipped. */
  lemma {:induction false} NothingRecorded(metadata: map<string, Groups>, objects: seq<Object>, header: seq<string>)
    ensures Parsed(metadata, header, RowsOf(objects, [])) == metadata
  {
    if objects != [] {
      assert RowsOf(objects, [])[1..] == RowsOf(objects[1..], []);
      NothingRecorded(metadata, objects[1..], header);
    }
  }

  /** Writing any metadata objects to CSV and parsing the file: exactly the names of the objects are known, and under
      each heading stand the values of the last object of the name, in order and without the empty ones. */
  lemma RoundTrip(objects: seq<Object>, file: string, k: string)
    ensures var keys := Ordered(AllKeys(objects));
            var parsed := Parsed(map[], StripAll(Tail(Header(objects))), RowsOf(objects, Header(objects)));
            if keys == [] then parsed == map[]
            else
              var last := LastNamed(objects, keys[0], file);
              && (file in parsed <==> last.Some?)
              && (last.Some? ==> LookUp(parsed[file], k) == Recorded(last.value, keys, k))
  {
    var keys, counts := Ordered(AllKeys(objects)), Counts(objects);
    if keys == [] {
      NothingRecorded(map[], objects, StripAll(Tail(Header(objects))));
    } else {
      OrderedHolds(AllKeys(objects));
      forall o | o in objects ensures Fits(o, keys, counts) {
        ObjectsFit(objects, o);
      }
      RowsRecorded(map[], objects, keys, counts, file, k);
    }
  }

  // ---------------------------------------------------------------- in terms of the objects

  predicate White(c: char) {
    c == ' ' || c == '\t' || c == '\n' || c == '\U{000B}' || c == '\U{000C}' || c == '\r'
  }

  predicate AllBlank(s: string) {
    forall i | 0 <= i < |s| :: White(s[i])
  }

  /** r is s without the white space around it. */
  predicate Trimmed(s: string, r: string) {
    exists i, j :: 0 <= i <= j <= |s| && r == s[i..j] && AllBlank(s[..i]) && AllBlank(s[j..]) && Solid(r)
  }

  predicate Solid(r: string) {
    r == "" || (!White(r[0]) && !White(r[|r| - 1]))
  }

  lemma {:induction false} StripLeftCut(s: string, i: nat)
    requires i <= |s| && AllBlank(s[..i])
    ensures StripLeft(s) == StripLeft(s[i..])
  {
    if i > 0 {
      assert s[0] == s[..i][0];
      assert s[1..][..i - 1] == s[..i][1..];
      StripLeftCut(s[1..], i - 1);
      assert s[1..][i - 1..] == s[i..];
    } else {
      assert s[0..] == s;
    }
  }

  lemma {:induction false} StripRightCut(s: string, j: nat)
    requires j <= |s| && AllBlank(s[j..])
    ensures StripRight(s) == StripRight(s[..j])
  {
    if j < |s| {
      assert s[|s| - 1] == s[j..][|s| - 1 - j];
      assert s[..|s| - 1][j..] == s[j..][..|s| - 1 - j];
      StripRightCut(s[..|s| - 1], j);
      assert s[..|s| - 1][..j] == s[..j];
    } else {
      assert s[..j] == s;
    }
  }

  lemma {:induction false} StripLeftHolds(s: string) returns (i: nat)
    ensures i <= |s| && StripLeft(s) == s[i..] && AllBlank(s[..i]) && (i < |s| ==> !White(s[i]))
  {
    if s != "" && IsBlank(s[0]) {
      var k := StripLeftHolds(s[1..]);
      i := k + 1;
      assert s[..i] == [s[0]] + s[1..][..k] && s[i..] == s[1..][k..];
    } else {
      i := 0;
    }
  }

  lemma {:induction false} StripRightHolds(s: string) returns (j: nat)
    ensures j <= |s| && StripRight(s) == s[..j] && AllBlank(s[j..]) && (j > 0 ==> !White(s[j - 1]))
  {
    if s != "" && IsBlank(s[|s| - 1]) {
      j := StripRightHolds(s[..|s| - 1]);
      assert s[j..] == s[..|s| - 1][j..] + [s[|s| - 1]] && s[..j] == s[..|s| - 1][..j];
    } else {
      j := |s|;
    }
  }

  lemma StripIsTrimmed(s: string, r: string)
    ensures Strip(s) == r <==> Trimmed(s, r)
  {
    var i := StripLeftHolds(s);
    var t := s[i..];
    var j := StripRightHolds(t);
    assert t[..j] == s[i..i + j] && t[j..] == s[i + j..];
    if j > 0 {
      assert t[0] == s[i] && t[..j][0] == t[0] && t[..j][j - 1] == t[j - 1];
    }
    assert Trimmed(s, Strip(s));
    if Trimmed(s, r) {
      var a, b :| 0 <= a <= b <= |s| && r == s[a..b] && AllBlank(s[..a]) && AllBlank(s[b..]) && Solid(r);
      TrimmedIsStrip(s, a, b);
    }
  }

  lemma SolidKept(r: string, rest: string)
    requires Solid(r) && r != ""
    ensures StripLeft(r + rest) == r + rest && StripRight(r) == r
  {
    assert (r + rest)[0] == r[0];
  }

  lemma TrimmedIsStrip(s: string, a: nat, b: nat)
    requires a <= b <= |s| && AllBlank(s[..a]) && AllBlank(s[b..]) && Solid(s[a..b])
    ensures Strip(s) == s[a..b]
  {
    StripLeftCut(s, a);
    var r, rest := s[a..b], s[b..];
    assert s[a..] == r + rest;
    if r == "" {
      assert s[a..] == rest && rest[..|rest|] == rest && rest[|rest|..] == "";
      StripLeftCut(rest, |rest|);
    } else {
      SolidKept(r, rest);
      assert (r + rest)[|r|..] == rest && (r + rest)[..|r|] == r;
      StripRightCut(r + rest, |r|);
    }
  }

  /** What an object holds in the first column: nothing, its only value, or the first item of its list. */
  predicate InFirst(o: Object, first: string, text: string) {
    if first !in o then text == ""
    else
      match o[first]
      case Scalar(None) => text == ""
      case Scalar(Some(t)) => text == t
      case Many(items) => text == if items == [] || items[0].None? then "" else items[0].value
  }

  /** The object is about the file. */
  ghost predicate Names(o: Object, first: string, file: string) {
    exists text :: InFirst(o, first, text) && SlashesCut(text, file)
  }

  lemma NamesIsFileOf(o: Object, first: string, file: string)
    ensures Names(o, first, file) <==> FileOf(o, first) == file
  {
    var text := Written(CellOf(o, map[], first));
    assert forall t :: InFirst(o, first, t) <==> t == text;
    RStripIsCut(text, file);
  }

  /** A value given under a key; the first item in the first column is the name. */
  predicate Gives(value: Value, v: string, isFirst: bool) {
    match value
    case Scalar(cell) => cell == Some(v) && !isFirst
    case Many(items) => exists n :: (if isFirst then 1 else 0) <= n < |items| && items[n] == Some(v)
  }

  /** The object gives the value under a key that is k but for white space around it. */
  predicate Says(o: Object, first: string, k: string, v: string) {
    v != "" && exists x :: x in o && Trimmed(x, k) && Gives(o[x], v, x == first)
  }

  lemma {:induction false} WrittenHolds(cells: seq<Cell>, v: string)
    ensures v in NonEmpty(WrittenAll(cells)) <==> v != "" && exists n :: 0 <= n < |cells| && cells[n] == Some(v)
  {
    if cells != [] {
      WrittenHolds(cells[1..], v);
      assert cells == [cells[0]] + cells[1..];
      if v != "" && (exists n :: 0 <= n < |cells| && cells[n] == Some(v)) && cells[0] != Some(v) {
        var n :| 0 <= n < |cells| && cells[n] == Some(v);
        assert cells[1..][n - 1] == Some(v);
      }
    }
  }

  lemma ListHolds(value: Value, v: string)
    ensures v in NonEmpty(ListOf(Some(value))) <==> v != "" && Gives(value, v, false)
    ensures v in Others(Some(value)) <==> v != "" && Gives(value, v, true)
  {
    match value
    case Scalar(cell) =>
      WrittenHolds([cell], v);
      assert WrittenAll([cell]) == [Written(cell)] by {
        assert [cell][1..] == [];
      }
      assert [cell][0] == cell;
    case Many(items) =>
      WrittenHolds(items, v);
      if items != [] {
        WrittenHolds(items[1..], v);
        if exists n :: 1 <= n < |items| && items[n] == Some(v) {
          var n :| 1 <= n < |items| && items[n] == Some(v);
          assert items[1..][n - 1] == Some(v);
        }
      }
  }

  lemma {:induction false} UnderHolds(o: Object, keys: seq<string>, k: string, v: string)
    ensures v in ValuesUnder(o, keys, k)
            <==> v != "" && exists x :: x in keys && x in o && Trimmed(x, k) && Gives(o[x], v, false)
  {
    if keys != [] {
      var x := keys[0];
      UnderHolds(o, keys[1..], k, v);
      StripIsTrimmed(x, k);
      if x in o {
        ListHolds(o[x], v);
      }
      assert keys == [x] + keys[1..];
    }
  }

  lemma RecordedHolds(o: Object, keys: seq<string>, k: string, v: string)
    requires keys != [] && Distinct(keys) && forall x | x in o :: x in keys
    ensures v in Recorded(o, keys, k) <==> Says(o, keys[0], k, v)
  {
    var first := keys[0];
    UnderHolds(o, keys[1..], k, v);
    StripIsTrimmed(first, k);
    if first in o {
      ListHolds(o[first], v);
    }
    DistinctHead(keys);
    assert keys == [first] + keys[1..];
  }

  /** The last object about the file. */
  ghost predicate IsLast(objects: seq<Object>, first: string, file: string, i: int) {
    && 0 <= i < |objects| && Names(objects[i], first, file)
    && forall j | i < j < |objects| :: !Names(objects[j], first, file)
  }

  lemma {:induction false} LastNamedIs(objects: seq<Object>, first: string, file: string)
    ensures LastNamed(objects, first, file).None? ==>
              forall i | 0 <= i < |objects| :: !Names(objects[i], first, file)
    ensures LastNamed(objects, first, file).Some? ==>
              exists i :: IsLast(objects, first, file, i) && objects[i] == LastNamed(objects, first, file).value
  {
    if objects != [] {
      var rest := objects[1..];
      LastNamedIs(rest, first, file);
      NamesIsFileOf(objects[0], first, file);
      assert forall j | 1 <= j < |objects| :: objects[j] == rest[j - 1];
      if LastNamed(rest, first, file).Some? {
        var i :| IsLast(rest, first, file, i) && rest[i] == LastNamed(rest, first, file).value;
        assert IsLast(objects, first, file, i + 1);
      } else if LastNamed(objects, first, file).Some? {
        assert IsLast(objects, first, file, 0);
      }
    }
  }

  /** The column that names the file. */
  ghost predicate FirstColumn(objects: seq<Object>, first: string) {
    || (first == "filename" && SomeHas(objects, "filename"))
    || (first == "parts" && !SomeHas(objects, "filename") && SomeHas(objects, "parts"))
  }

  /** Objects written to CSV and read back, said of the objects: the files known are those that some object is about,
      and under each heading stands exactly what the last object about the file gives there. */
  lemma ObjectsReadBack(objects: seq<Object>, first: string, file: string, k: string, v: string)
    requires FirstColumn(objects, first)
    ensures var parsed := Parsed(map[], StripAll(Tail(Header(objects))), RowsOf(objects, Header(objects)));
            && (file in parsed <==> exists i :: 0 <= i < |objects| && Names(objects[i], first, file))
            && forall i | IsLast(objects, first, file, i) ::
                 file in parsed && (v in LookUp(parsed[file], k) <==> Says(objects[i], first, k, v))
  {
    var keys := Ordered(AllKeys(objects));
    AllKeysHold(objects, "filename");
    AllKeysHold(objects, "parts");
    OrderedFirst(AllKeys(objects));
    OrderedHolds(AllKeys(objects));
    RoundTrip(objects, file, k);
    LastNamedIs(objects, first, file);
    if LastNamed(objects, first, file).Some? {
      var i :| IsLast(objects, first, file, i) && objects[i] == LastNamed(objects, first, file).value;
      KeysOf(objects, i);
      RecordedHolds(objects[i], keys, k, v);
    }
  }

  lemma KeysOf(objects: seq<Object>, i: nat)
    requires i < |objects|
    ensures forall x | x in objects[i] :: x in Ordered(AllKeys(objects))
  {
    OrderedHolds(AllKeys(objects));
    forall x | x in objects[i] ensures x in AllKeys(objects) {
      AllKeysHold(objects, x);
    }
  }

  /** With trimmed keys and one column for the name, the keys keep their order as well. */
  lemma RoundTripInOrder(objects: seq<Object>, file: string)
    requires forall k | k in AllKeys(objects) :: Strip(k) == k
    requires AllKeys(objects) != {} && Width(Counts(objects), Ordered(AllKeys(objects))[0]) == 1
    ensures var keys := Ordered(AllKeys(objects));
            var parsed := Parsed(map[], StripAll(Tail(Header(objects))), RowsOf(objects, Header(objects)));
            var last := LastNamed(objects, keys[0], file);
            Get(parsed, file) == if last.Some? then Some(Meaning(last.value, keys[1..])) else None
  {
    var keys, counts := Ordered(AllKeys(objects)), Counts(objects);
    OrderedHolds(AllKeys(objects));
    forall o | o in objects ensures Fits(o, keys, counts) {
      ObjectsFit(objects, o);
    }
    assert Repeat(keys[0], 1) == [keys[0]];
    assert Tail(Header(objects)) == Spread(keys[1..], counts);
    forall k | k in Spread(keys[1..], counts) ensures Strip(k) == k {
      SpreadFrom(keys[1..], counts, k);
    }
    StripNothing(Spread(keys[1..], counts));
    RowsReadBack(map[], objects, keys, counts, file);
  }
}

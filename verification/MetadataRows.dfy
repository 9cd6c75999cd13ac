/** From metadata objects to the rows of a CSV file: repeated columns for lists
    (worker/worker/clientScripts/json_metadata_to_csv.py). */
module MetadataRows {
  import opened Text

  /** A cell is None where the value is null or absent; it is written as an empty string. */
  type Cell = Option<string>

  datatype Value = Scalar(cell: Cell) | Many(items: seq<Cell>)

  type Object = map<string, Value>

  // ---------------------------------------------------------------- the order of the keys

  predicate Leq(a: string, b: string) {
    a == "" || (b != "" && (a[0] < b[0] || (a[0] == b[0] && Leq(a[1..], b[1..]))))
  }

  lemma {:induction false} LeqTotal(a: string, b: string)
    ensures Leq(a, b) || Leq(b, a)
    ensures Leq(a, b) && Leq(b, a) ==> a == b
  {
    if a != "" && b != "" {
      LeqTotal(a[1..], b[1..]);
      assert a == [a[0]] + a[1..] && b == [b[0]] + b[1..];
    }
  }

  lemma {:induction false} LeqTransitive(a: string, b: string, c: string)
    requires Leq(a, b) && Leq(b, c)
    ensures Leq(a, c)
  {
    if a != "" && a[0] == b[0] == c[0] {
      LeqTransitive(a[1..], b[1..], c[1..]);
    }
  }

  predicate IsLeast(m: string, s: set<string>) {
    m in s && forall x | x in s :: Leq(m, x)
  }

  lemma HasLeast(s: set<string>) returns (least: string)
    requires s != {}
    ensures IsLeast(least, s)
    decreases |s|
  {
    var m :| m in s;
    LeqTotal(m, m);
    if s == {m} {
      least := m;
    } else {
      assert |s - {m}| < |s|;
      var r := HasLeast(s - {m});
      LeqTotal(m, r);
      least := if Leq(m, r) then m else r;
      LeastOfBoth(m, r, s);
    }
  }

  lemma {:induction false} LeastOfBoth(m: string, r: string, s: set<string>)
    requires m in s && IsLeast(r, s - {m}) && Leq(m, m)
    ensures Leq(m, r) ==> IsLeast(m, s)
    ensures Leq(r, m) ==> IsLeast(r, s)
  {
    if Leq(m, r) {
      forall x | x in s ensures Leq(m, x) {
        if x != m {
          LeqTransitive(m, r, x);
        }
      }
    }
  }

  lemma LeastExists(s: set<string>)
    requires s != {}
    ensures exists m :: IsLeast(m, s)
  {
    var least := HasLeast(s);
  }

  lemma LeastUnique()
    ensures forall a, b | Leq(a, b) && Leq(b, a) :: a == b
  {
    forall a, b | Leq(a, b) && Leq(b, a) ensures a == b {
      LeqTotal(a, b);
    }
  }

  /** Python's sorted on a set of strings. */
  function Sorted(s: set<string>): seq<string>
    decreases |s|
  {
    if s == {} then []
    else
      LeastExists(s);
      LeastUnique();
      var m :| IsLeast(m, s);
      assert |s - {m}| < |s|;
      [m] + Sorted(s - {m})
  }

  /** Before in a dictionary: where the texts part, the character is smaller or the text ends. */
  predicate Before(a: string, b: string) {
    exists n: nat :: n <= |a| && n < |b| && a[..n] == b[..n] && (n == |a| || a[n] < b[n])
  }

  lemma {:induction false} LeqIsBefore(a: string, b: string)
    ensures Leq(a, b) && a != b <==> Before(a, b)
  {
    if a == "" {
      assert b != "" ==> a[..0] == b[..0];
    } else if b != "" {
      assert a == [a[0]] + a[1..] && b == [b[0]] + b[1..];
      if a[0] == b[0] {
        LeqIsBefore(a[1..], b[1..]);
        BeforeTail(a, b);
      } else {
        assert a[..0] == b[..0];
        BeforeHead(a, b);
      }
    }
  }

  lemma BeforeHead(a: string, b: string)
    requires a != "" && b != "" && a[0] != b[0]
    ensures Before(a, b) <==> a[0] < b[0]
  {
    assert a[..0] == b[..0];
    forall n: nat | 0 < n <= |a| && n < |b| ensures a[..n] != b[..n] {
      assert a[..n][0] == a[0] && b[..n][0] == b[0];
    }
  }

  lemma BeforeTail(a: string, b: string)
    requires a != "" && b != "" && a[0] == b[0]
    ensures Before(a, b) <==> Before(a[1..], b[1..])
  {
    var c, d := a[1..], b[1..];
    if Before(c, d) {
      var n: nat :| n <= |c| && n < |d| && c[..n] == d[..n] && (n == |c| || c[n] < d[n]);
      assert a[..n + 1] == [a[0]] + c[..n] && b[..n + 1] == [b[0]] + d[..n];
    }
    if Before(a, b) {
      var n: nat :| n <= |a| && n < |b| && a[..n] == b[..n] && (n == |a| || a[n] < b[n]);
      assert n > 0;
      assert c[..n - 1] == a[..n][1..] && d[..n - 1] == b[..n][1..];
    }
  }

  predicate Rises(s: seq<string>) {
    forall i, j | 0 <= i < j < |s| :: Before(s[i], s[j])
  }

  lemma {:induction false} SortedRises(s: set<string>)
    ensures Rises(Sorted(s))
    decreases |s|
  {
    if s != {} {
      var m := Sorted(s)[0];
      assert m in s && Sorted(s)[1..] == Sorted(s - {m});
      assert |s - {m}| < |s|;
      SortedRises(s - {m});
      forall j | 1 <= j < |Sorted(s)| ensures Before(m, Sorted(s)[j]) {
        assert Sorted(s)[j] == Sorted(s - {m})[j - 1];
        SortedHolds(s - {m}, Sorted(s)[j]);
        LeqIsBefore(m, Sorted(s)[j]);
      }
      forall i, j | 1 <= i < j < |Sorted(s)| ensures Before(Sorted(s)[i], Sorted(s)[j]) {
        assert Sorted(s)[i] == Sorted(s - {m})[i - 1] && Sorted(s)[j] == Sorted(s - {m})[j - 1];
      }
    }
  }

  lemma {:induction false} SortedHolds(s: set<string>, x: string)
    ensures x in Sorted(s) <==> x in s
    decreases |s|
  {
    if s != {} {
      var m := Sorted(s)[0];
      assert m in s && Sorted(s)[1..] == Sorted(s - {m});
      assert |s - {m}| < |s|;
      SortedHolds(s - {m}, x);
    }
  }

  lemma {:induction false} SortedDistinct(s: set<string>)
    ensures Distinct(Sorted(s))
    decreases |s|
  {
    if s != {} {
      var m := Sorted(s)[0];
      assert m in s && Sorted(s)[1..] == Sorted(s - {m});
      assert |s - {m}| < |s|;
      SortedDistinct(s - {m});
      SortedHolds(s - {m}, m);
    }
  }

  /** The key of the first column comes first, the others in order. */
  function Ordered(keys: set<string>): seq<string> {
    if "filename" in keys then ["filename"] + Sorted(keys - {"filename"})
    else if "parts" in keys then ["parts"] + Sorted(keys - {"parts"})
    else Sorted(keys)
  }

  lemma OrderedHolds(keys: set<string>)
    ensures Distinct(Ordered(keys))
    ensures forall x :: x in Ordered(keys) <==> x in keys
  {
    var first := if "filename" in keys then {"filename"} else if "parts" in keys then {"parts"} else {};
    assert keys - {} == keys;
    SortedDistinct(keys - first);
    forall x ensures x in Sorted(keys - first) <==> x in keys - first {
      SortedHolds(keys - first, x);
    }
  }

  /** The name of the file, or else the parts, come first if there are any; all other keys follow in order. */
  lemma OrderedFirst(keys: set<string>)
    ensures "filename" in keys ==> Ordered(keys) != [] && Ordered(keys)[0] == "filename" && Rises(Ordered(keys)[1..])
    ensures "filename" !in keys && "parts" in keys ==>
              Ordered(keys) != [] && Ordered(keys)[0] == "parts" && Rises(Ordered(keys)[1..])
    ensures "filename" !in keys && "parts" !in keys ==> Rises(Ordered(keys))
  {
    SortedRises(keys);
    SortedRises(keys - {"filename"});
    SortedRises(keys - {"parts"});
    assert forall k, s: seq<string> :: ([k] + s)[1..] == s;
  }

  // ---------------------------------------------------------------- the header row

  function AllKeys(objects: seq<Object>): set<string> {
    if objects == [] then {} else AllKeys(objects[..|objects| - 1]) + objects[|objects| - 1].Keys
  }

  predicate HasList(objects: seq<Object>, k: string) {
    objects != [] && (HasList(objects[..|objects| - 1], k) || ListLength(objects[|objects| - 1], k).Some?)
  }

  function ListLength(o: Object, k: string): Option<nat> {
    if k in o && o[k].Many? then Some(|o[k].items|) else None
  }

  /** The length of the longest list under the key. */
  function Longest(objects: seq<Object>, k: string): nat {
    if objects == [] then 0
    else
      var before := Longest(objects[..|objects| - 1], k);
      match ListLength(objects[|objects| - 1], k)
      case None => before
      case Some(n) => if n > before then n else before
  }

  function Counts(objects: seq<Object>): map<string, nat> {
    map k | k in AllKeys(objects) && HasList(objects, k) :: Longest(objects, k)
  }

  function Width(counts: map<string, nat>, k: string): nat {
    if k in counts && counts[k] > 1 then counts[k] else 1
  }

  function Repeat(k: string, n: nat): seq<string> {
    if n == 0 then [] else [k] + Repeat(k, n - 1)
  }

  function Spread(keys: seq<string>, counts: map<string, nat>): seq<string> {
    if keys == [] then [] else Repeat(keys[0], Width(counts, keys[0])) + Spread(keys[1..], counts)
  }

  /** Every key, its copies side by side, as often as its longest list has items but at least once. */
  function Header(objects: seq<Object>): seq<string> {
    Spread(Ordered(AllKeys(objects)), Counts(objects))
  }

  // ---------------------------------------------------------------- what the header is

  predicate SomeHas(objects: seq<Object>, k: string) {
    exists i :: 0 <= i < |objects| && k in objects[i]
  }

  lemma {:induction false} AllKeysHold(objects: seq<Object>, k: string)
    ensures k in AllKeys(objects) <==> SomeHas(objects, k)
  {
    if objects != [] {
      var front := objects[..|objects| - 1];
      AllKeysHold(front, k);
      assert forall i | 0 <= i < |front| :: front[i] == objects[i];
      if SomeHas(objects, k) && k !in objects[|objects| - 1] {
        var i :| 0 <= i < |objects| && k in objects[i];
        assert k in front[i];
      }
    }
  }

  /** n columns are needed for the key: one, or as many as its longest list has items. */
  ghost predicate Needs(objects: seq<Object>, k: string, n: nat) {
    && (n > 0 <==> SomeHas(objects, k))
    && (forall i | 0 <= i < |objects| && k in objects[i] && objects[i][k].Many? :: |objects[i][k].items| <= n)
    && (n > 1 ==> exists i :: 0 <= i < |objects| && k in objects[i] && objects[i][k].Many?
                              && |objects[i][k].items| == n)
  }

  lemma {:induction false} LongestIs(objects: seq<Object>, k: string)
    ensures forall i | 0 <= i < |objects| && k in objects[i] && objects[i][k].Many? ::
              HasList(objects, k) && |objects[i][k].items| <= Longest(objects, k)
    ensures HasList(objects, k) ==> k in AllKeys(objects)
    ensures Longest(objects, k) > 0 ==>
              HasList(objects, k)
              && exists i :: 0 <= i < |objects| && k in objects[i] && objects[i][k].Many?
                             && |objects[i][k].items| == Longest(objects, k)
  {
    if objects != [] {
      var front := objects[..|objects| - 1];
      LongestIs(front, k);
      assert forall i | 0 <= i < |front| :: front[i] == objects[i];
    }
  }

  lemma {:induction false} RepeatCounts(x: string, n: nat, k: string)
    ensures multiset(Repeat(x, n))[k] == if k == x then n else 0
  {
    if n > 0 {
      RepeatCounts(x, n - 1, k);
    }
  }

  lemma {:induction false} SpreadCounts(keys: seq<string>, counts: map<string, nat>, k: string)
    requires Distinct(keys)
    ensures multiset(Spread(keys, counts))[k] == if k in keys then Width(counts, k) else 0
  {
    if keys != [] {
      DistinctHead(keys);
      SpreadCounts(keys[1..], counts, k);
      RepeatCounts(keys[0], Width(counts, keys[0]), k);
      assert keys == [keys[0]] + keys[1..];
    }
  }

  /** Rising, but for copies side by side. */
  predicate NeverFalls(s: seq<string>) {
    forall i, j | 0 <= i < j < |s| :: s[i] == s[j] || Before(s[i], s[j])
  }

  lemma {:induction false} SpreadRises(keys: seq<string>, counts: map<string, nat>)
    requires Rises(keys)
    ensures NeverFalls(Spread(keys, counts)) && forall x | x in Spread(keys, counts) :: x in keys
  {
    if keys != [] {
      var copies, rest := Repeat(keys[0], Width(counts, keys[0])), Spread(keys[1..], counts);
      SpreadRises(keys[1..], counts);
      AllCopies(keys[0], Width(counts, keys[0]));
      assert keys == [keys[0]] + keys[1..];
      forall j | 0 <= j < |rest| ensures Before(keys[0], rest[j]) {
        assert rest[j] in keys[1..];
      }
    }
  }

  lemma {:induction false} AllCopies(x: string, n: nat)
    ensures |Repeat(x, n)| == n && forall i | 0 <= i < n :: Repeat(x, n)[i] == x
  {
    if n > 0 {
      AllCopies(x, n - 1);
    }
  }

  /** first, if it is a key, fills the leftmost columns; the others rise. */
  ghost predicate StartsWith(header: seq<string>, first: string, n: nat) {
    && 0 < n <= |header| && (forall i | 0 <= i < n :: header[i] == first)
    && first !in header[n..] && NeverFalls(header[n..])
  }

  /** The columns: those of the file name or else of the parts come first, the others in the order of their keys,
      each key side by side as often as its longest list has items but at least once. */
  ghost predicate IsHeader(header: seq<string>, objects: seq<Object>) {
    && (forall k :: Needs(objects, k, multiset(header)[k]))
    && (SomeHas(objects, "filename") ==> exists n :: StartsWith(header, "filename", n))
    && (!SomeHas(objects, "filename") && SomeHas(objects, "parts") ==> exists n :: StartsWith(header, "parts", n))
    && (!SomeHas(objects, "filename") && !SomeHas(objects, "parts") ==> NeverFalls(header))
  }

  lemma SpreadStarts(keys: seq<string>, counts: map<string, nat>)
    requires keys != [] && Distinct(keys) && Rises(keys[1..])
    ensures StartsWith(Spread(keys, counts), keys[0], Width(counts, keys[0]))
  {
    var n, rest := Width(counts, keys[0]), Spread(keys[1..], counts);
    AllCopies(keys[0], n);
    SpreadRises(keys[1..], counts);
    DistinctHead(keys);
    assert Spread(keys, counts)[n..] == rest;
  }

  lemma HeaderHolds(objects: seq<Object>)
    ensures IsHeader(Header(objects), objects)
  {
    var keys, counts := Ordered(AllKeys(objects)), Counts(objects);
    OrderedHolds(AllKeys(objects));
    OrderedFirst(AllKeys(objects));
    forall k ensures Needs(objects, k, multiset(Header(objects))[k]) {
      SpreadCounts(keys, counts, k);
      AllKeysHold(objects, k);
      LongestIs(objects, k);
    }
    AllKeysHold(objects, "filename");
    AllKeysHold(objects, "parts");
    if SomeHas(objects, "filename") || SomeHas(objects, "parts") {
      SpreadStarts(keys, counts);
    } else {
      SpreadRises(keys, counts);
    }
  }

  // ---------------------------------------------------------------- fetch_keys

  lemma CountsGrow(objects: seq<Object>, i: nat)
    requires i < |objects|
    ensures objects[..i + 1][..i] == objects[..i]
    ensures AllKeys(objects[..i + 1]) == AllKeys(objects[..i]) + objects[i].Keys
  {
    assert objects[..i + 1][..i] == objects[..i];
  }

  /** One object's lists seen for the keys in seen. */
  predicate Counted(counts: map<string, nat>, objects: seq<Object>, i: nat, seen: set<string>)
    requires i < |objects|
  {
    forall k | k in AllKeys(objects[..i]) + objects[i].Keys ::
      var upTo := if k in seen then objects[..i + 1] else objects[..i];
      (k in counts <==> HasList(upTo, k)) && (k in counts ==> counts[k] == Longest(upTo, k))
  }

  lemma CountOne(counts: map<string, nat>, objects: seq<Object>, i: nat, seen: set<string>, k: string)
    requires i < |objects| && k in objects[i] && k !in seen && Counted(counts, objects, i, seen)
    ensures var n := ListLength(objects[i], k);
            var counts' := if n.Some? && (k !in counts || counts[k] < n.value) then counts[k := n.value] else counts;
            Counted(counts', objects, i, seen + {k})
  {
    assert objects[..i + 1][..i] == objects[..i];
    LongestListed(objects[..i], k);
  }

  lemma {:induction false} LongestListed(objects: seq<Object>, k: string)
    ensures HasList(objects, k) ==> k in AllKeys(objects)
    ensures !HasList(objects, k) ==> Longest(objects, k) == 0
  {
    if objects != [] {
      LongestListed(objects[..|objects| - 1], k);
    }
  }

  /** The list with n more copies of x after its first x. */
  function WithCopies(s: seq<string>, x: string, n: nat): seq<string> {
    if s == [] then []
    else if s[0] == x then [x] + Repeat(x, n) + s[1..]
    else [s[0]] + WithCopies(s[1..], x, n)
  }

  lemma {:induction false} WithCopiesAt(s: seq<string>, x: string, n: nat)
    requires x in s
    ensures var p := FirstIndex(s, x) + 1;
            WithCopies(s, x, n) == s[..p] + Repeat(x, n) + s[p..]
  {
    if s[0] == x {
      assert s[..1] == [x];
    } else {
      WithCopiesAt(s[1..], x, n);
      var p := FirstIndex(s[1..], x) + 1;
      assert s[..p + 1] == [s[0]] + s[1..][..p] && s[p + 1..] == s[1..][p..];
    }
  }

  lemma FirstKept(k0: string, s: seq<string>, x: string, n: nat)
    requires k0 != x
    ensures WithCopies([k0] + s, x, n) == [k0] + WithCopies(s, x, n)
  {
    assert ([k0] + s)[1..] == s;
  }

  lemma {:induction false} WithCopiesAfter(k0: string, m: nat, rest: seq<string>, x: string, n: nat)
    requires k0 != x
    ensures WithCopies(Repeat(k0, m) + rest, x, n) == Repeat(k0, m) + WithCopies(rest, x, n)
  {
    if m == 0 {
      assert Repeat(k0, m) + rest == rest;
    } else {
      SeqAssoc([k0], Repeat(k0, m - 1), rest);
      WithCopiesAfter(k0, m - 1, rest, x, n);
      SeqAssoc([k0], Repeat(k0, m - 1), WithCopies(rest, x, n));
      FirstKept(k0, Repeat(k0, m - 1) + rest, x, n);
    }
  }

  /** Inserting copies after the first occurrence widens one key. */
  lemma {:induction false} InsertCopies(keys: seq<string>, counts: map<string, nat>, k: string, n: nat)
    requires Distinct(keys) && k in keys && k !in counts
    ensures Spread(keys, counts[k := n]) == WithCopies(Spread(keys, counts), k, if n > 1 then n - 1 else 0)
  {
    var rest := Spread(keys[1..], counts);
    if keys[0] == k {
      SpreadOthers(keys[1..], counts, k, n);
      assert Repeat(k, 1) == [k];
      assert Spread(keys, counts) == [k] + rest;
    } else {
      InsertCopies(keys[1..], counts, k, n);
      WithCopiesAfter(keys[0], Width(counts, keys[0]), rest, k, if n > 1 then n - 1 else 0);
    }
  }

  lemma {:induction false} SpreadKeeps(keys: seq<string>, counts: map<string, nat>, k: string)
    requires k in keys
    ensures k in Spread(keys, counts)
  {
    if keys[0] == k {
      assert Repeat(k, Width(counts, k))[0] == k;
      assert Spread(keys, counts)[0] == k;
    } else {
      SpreadKeeps(keys[1..], counts, k);
    }
  }

  lemma {:induction false} SpreadOthers(keys: seq<string>, counts: map<string, nat>, k: string, n: nat)
    requires k !in keys
    ensures Spread(keys, counts[k := n]) == Spread(keys, counts)
  {
    if keys != [] {
      SpreadOthers(keys[1..], counts, k, n);
    }
  }

  lemma {:induction false} SpreadOnce(keys: seq<string>)
    ensures Spread(keys, map[]) == keys
  {
    if keys != [] {
      SpreadOnce(keys[1..]);
      assert Repeat(keys[0], 1) == [keys[0]];
    }
  }

  /** Removing a key from the sorted list. */
  lemma {:induction false} SortedWithout(s: set<string>, x: string)
    requires x in s
    ensures RemoveFirst(Sorted(s), x) == Sorted(s - {x})
    decreases |s|
  {
    var m := Sorted(s)[0];
    assert m in s && Sorted(s) == [m] + Sorted(s - {m});
    RemoveFirstFrom(m, Sorted(s - {m}), x);
    if m != x {
      assert |s - {m}| < |s|;
      SortedWithout(s - {m}, x);
      LeastStays(s, x);
      assert s - {m} - {x} == s - {x} - {m};
    }
  }

  lemma LeastStays(s: set<string>, x: string)
    requires x in s && Sorted(s)[0] != x
    ensures Sorted(s - {x}) == [Sorted(s)[0]] + Sorted(s - {x} - {Sorted(s)[0]})
  {
    var m := Sorted(s)[0];
    assert IsLeast(m, s) && IsLeast(m, s - {x});
    LeastUnique();
  }

  method FetchKeys(objects: seq<Object>) returns (keys: seq<string>)
    ensures keys == Header(objects) && IsHeader(keys, objects)
  {
    HeaderHolds(objects);
    var counts: map<string, nat>, all: set<string> := map[], {};
    counts, all := CountLists(objects);
    keys := Sorted(all);
    SortedHolds(all, "filename");
    SortedHolds(all, "parts");
    if "filename" in keys {
      SortedWithout(all, "filename");
      var p := IndexOf(keys, "filename");
      keys := ["filename"] + (keys[..p] + keys[p + 1..]);
    } else if "parts" in keys {
      SortedWithout(all, "parts");
      var p := IndexOf(keys, "parts");
      keys := ["parts"] + (keys[..p] + keys[p + 1..]);
    }
    OrderedHolds(all);
    keys := InsertOccurrences(keys, counts);
  }

  /** The first loop of fetch_keys. */
  method CountLists(objects: seq<Object>) returns (counts: map<string, nat>, all: set<string>)
    ensures counts == Counts(objects) && all == AllKeys(objects)
  {
    counts, all := map[], {};
    var i := 0;
    while i < |objects|
      invariant i <= |objects|
      invariant counts == Counts(objects[..i]) && all == AllKeys(objects[..i])
    {
      counts := CountObject(counts, objects, i);
      CountsGrow(objects, i);
      all := all + objects[i].Keys;
      i := i + 1;
    }
    assert objects[..i] == objects;
  }

  method CountObject(counts0: map<string, nat>, objects: seq<Object>, i: nat) returns (counts: map<string, nat>)
    requires i < |objects| && counts0 == Counts(objects[..i])
    ensures counts == Counts(objects[..i + 1])
  {
    counts := counts0;
    var o, todo := objects[i], objects[i].Keys;
    CountsStart(objects, i);
    while todo != {}
      invariant todo <= o.Keys && counts.Keys <= AllKeys(objects[..i]) + o.Keys
      invariant Counted(counts, objects, i, o.Keys - todo)
      decreases |todo|
    {
      var key :| key in todo;
      CountOne(counts, objects, i, o.Keys - todo, key);
      SeenOneMore(o.Keys, todo, key);
      if o[key].Many? {
        var occurrence := |o[key].items|;
        if key !in counts || counts[key] < occurrence {
          counts := counts[key := occurrence];
        }
      }
      todo := todo - {key};
    }
    assert o.Keys - todo == o.Keys;
    CountsEnd(counts, objects, i);
  }

  lemma SeenOneMore(all: set<string>, todo: set<string>, key: string)
    requires key in todo && todo <= all
    ensures key !in all - todo && all - todo + {key} == all - (todo - {key})
  {
  }

  lemma CountsStart(objects: seq<Object>, i: nat)
    requires i < |objects|
    ensures Counted(Counts(objects[..i]), objects, i, {})
  {
    forall k ensures HasList(objects[..i], k) ==> k in AllKeys(objects[..i]) {
      LongestListed(objects[..i], k);
    }
  }

  lemma CountsEnd(counts: map<string, nat>, objects: seq<Object>, i: nat)
    requires i < |objects| && Counted(counts, objects, i, objects[i].Keys)
    requires counts.Keys <= AllKeys(objects[..i]) + objects[i].Keys
    ensures counts == Counts(objects[..i + 1])
  {
    CountsGrow(objects, i);
    forall k | k in AllKeys(objects[..i + 1])
      ensures (k in counts <==> HasList(objects[..i + 1], k))
                && (k in counts ==> counts[k] == Longest(objects[..i + 1], k))
    {
      assert objects[..i + 1][|objects[..i + 1]| - 1] == objects[i];
    }
  }

  lemma {:induction false} InsertStep(first: seq<string>, counts: map<string, nat>, todo: set<string>, key: string)
    requires Distinct(first) && key in first && key in todo && todo <= counts.Keys
    ensures var keys := Spread(first, counts - todo);
            var p := FirstIndex(keys, key) + 1;
            p <= |keys|
            && Spread(first, counts - (todo - {key}))
               == keys[..p] + Repeat(key, if counts[key] > 1 then counts[key] - 1 else 0) + keys[p..]
  {
    SpreadKeeps(first, counts - todo, key);
    InsertCopies(first, counts - todo, key, counts[key]);
    WithCopiesAt(Spread(first, counts - todo), key, if counts[key] > 1 then counts[key] - 1 else 0);
    assert (counts - todo)[key := counts[key]] == counts - (todo - {key});
  }

  /** The last loop of fetch_keys. */
  method InsertOccurrences(first: seq<string>, counts: map<string, nat>) returns (keys: seq<string>)
    requires Distinct(first) && forall k | k in counts :: k in first
    ensures keys == Spread(first, counts)
  {
    keys := first;
    SpreadOnce(first);
    var todo := counts.Keys;
    assert counts - todo == map[];
    while todo != {}
      invariant todo <= counts.Keys && keys == Spread(first, counts - todo)
      decreases |todo|
    {
      var key :| key in todo;
      InsertStep(first, counts, todo, key);
      keys := WithOccurrences(keys, key, counts[key]);
      todo := todo - {key};
    }
    assert counts - todo == counts;
  }

  method WithOccurrences(keys: seq<string>, key: string, count: nat) returns (r: seq<string>)
    requires key in keys
    ensures var p := FirstIndex(keys, key) + 1;
            r == keys[..p] + Repeat(key, if count > 1 then count - 1 else 0) + keys[p..]
  {
    var index := IndexOf(keys, key);
    var copies := CopiesOf(key, count);
    r := keys[..index + 1] + copies + keys[index + 1..];
  }

  /** The copies inserted one by one at the same place. */
  method CopiesOf(key: string, count: nat) returns (copies: seq<string>)
    ensures copies == Repeat(key, if count > 1 then count - 1 else 0)
  {
    copies := [];
    var i := 0;
    while i + 1 < count
      invariant i <= (if count > 1 then count - 1 else 0) && copies == Repeat(key, i)
    {
      copies := [key] + copies;
      i := i + 1;
    }
  }
}

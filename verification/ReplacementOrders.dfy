/** A template filled in every order of the mapping gives the intended text exactly when it is unambiguous: an
    unfaithful replacement cannot be made good in all orders (internal/controller/package.go). */
module ReplacementOrders {
  import opened Text
  import opened Replacements

  // ---------------------------------------------------------------- templates in parts

  lemma {:induction false} ReachesMore(
    a: seq<Piece>, b: seq<Piece>, some: map<string, string>, values: map<string, string>, n: string, k: string,
    text: string, inner: set<string>)
    requires (forall p | p in some :: p in values && values[p] == some[p]) && Reaches(a, some, n, k, text, inner)
    ensures Reaches(a + b, values, n, k, text, inner)
  {
    assert (a + b)[1..] == a[1..] + b;
    match a[0]
    case Literal(x) => ReachesMore(a[1..], b, some, values, n, k, text + x, inner);
    case Key(p) =>
      if !(p !in inner && text == k) {
        ReachesMore(a[1..], b, some, values, n, k, text + some[p], inner + {p});
      }
  }

  /** What is spelled stays spelled when the template goes on and when more keys have values. */
  lemma {:induction false} SpelledMore(
    a: seq<Piece>, b: seq<Piece>, some: map<string, string>, values: map<string, string>, k: string)
    requires (forall p | p in some :: p in values && values[p] == some[p]) && Spelled(a, some, k)
    ensures Spelled(a + b, values, k)
  {
    assert (a + b)[1..] == a[1..] + b;
    if Spelled(a[1..], some, k) {
      SpelledMore(a[1..], b, some, values, k);
    } else {
      ReachesMore(a[1..], b, some, values, a[0].name, k, "", {});
    }
  }

  lemma {:induction false} ShortestPrefix(t: seq<Piece>, values: map<string, string>) returns (r: nat)
    requires !Unambiguous(t, values)
    ensures r < |t| && Unambiguous(t[..r], values) && !Unambiguous(t[..r + 1], values)
  {
    var front := t[..|t| - 1];
    if Unambiguous(front, values) {
      r := |front|;
      assert t[..r + 1] == t;
    } else {
      r := ShortestPrefix(front, values);
      assert front[..r] == t[..r] && front[..r + 1] == t[..r + 1];
    }
  }

  lemma {:induction false} ShortestSuffix(t: seq<Piece>, values: map<string, string>) returns (i: nat)
    requires !Unambiguous(t, values)
    ensures i < |t| && Unambiguous(t[i + 1..], values) && !Unambiguous(t[i..], values)
  {
    if Unambiguous(t[1..], values) {
      i := 0;
      assert t[0..] == t;
    } else {
      var j := ShortestSuffix(t[1..], values);
      i := j + 1;
      assert t[1..][j + 1..] == t[i + 1..] && t[1..][j..] == t[i..];
    }
  }

  /** All pieces pass: literals, and keys with values other than n, k and m. */
  predicate Passes(pieces: seq<Piece>, values: map<string, string>, n: string, k: string, m: string) {
    forall p | p in pieces && p.Key? :: p.name in values && p.name !in {n, k, m}
  }

  /** If only the last piece completes k, it is a key and all pieces before it have been replaced. */
  lemma {:induction false} PassesAll(
    pieces: seq<Piece>, last: Piece, values: map<string, string>, n: string, k: string, text: string,
    inner: set<string>)
    requires Reaches(pieces + [last], values, n, k, text, inner) && !Reaches(pieces, values, n, k, text, inner)
    ensures last.Key? && last.name !in inner && Passes(pieces, values, n, k, last.name)
    ensures text + Render(Fill(pieces, values)) == k
  {
    var t := pieces + [last];
    if pieces == [] {
      assert t[1..] == [];
      assert text + "" == text;
    } else {
      assert t[1..] == pieces[1..] + [last];
      var filled := FillPiece(pieces[0], values);
      RenderFill(pieces, values);
      var added := RenderPiece(filled);
      var passed := if pieces[0].Key? then inner + {pieces[0].name} else inner;
      PassesAll(pieces[1..], last, values, n, k, text + added, passed);
      assert text + (added + Render(Fill(pieces[1..], values))) == (text + added) + Render(Fill(pieces[1..], values));
    }
  }

  // ---------------------------------------------------------------- a template before other text

  /** Before text that starts with a percent sign, the text after a key reads as before a key. */
  lemma {:induction false} GapThen(a: seq<Piece>, x: string, s: string) returns (rest: string)
    requires StartsWithSign(s)
    ensures Render(a) + s == Gap(a + [Key(x)]) + ([PERCENT] + rest)
  {
    var t := a + [Key(x)];
    if a == [] {
      rest := s[1..];
      assert "" + s == s == "" + ([PERCENT] + rest);
    } else if a[0].Key? {
      rest := (Render(a) + s)[1..];
      assert Render(a)[0] == PERCENT;
    } else {
      assert t[1..] == a[1..] + [Key(x)];
      rest := GapThen(a[1..], x, s);
      SeqAssoc(a[0].text, Render(a[1..]), s);
      SeqAssoc(a[0].text, Gap(t[1..]), [PERCENT] + rest);
    }
  }

  lemma PrefixStepKey(
    a: seq<Piece>, x: string, n: string, k: string, e: string, s: string, filled: string, after: string)
    requires ValidTemplate(a) && ValidName(n) && ValidName(k) && StartsWithSign(s) && n != k
    requires Gap(a + [Key(x)]) != k && ReplaceAll(Render(a) + s, Wrap(k), e) == filled + after
    ensures ReplaceAll(Wrap(n) + (Render(a) + s), Wrap(k), e) == (Wrap(n) + filled) + after
  {
    var rest := Render(a) + s;
    ReplaceAtOther(n, rest, k, e);
    ClosingStays(a, x, k, s);
    assert ([PERCENT] + rest)[1..] == rest;
    SeqAssoc(Wrap(n), filled, after);
    SeqAssoc([PERCENT] + n, [PERCENT], filled + after);
  }

  lemma {:induction false} PrefixStep(a: seq<Piece>, x: string, k: string, e: string, s: string)
    requires ValidTemplate(a) && ValidName(k) && StartsWithSign(s) && !Clash(a + [Key(x)], k)
    ensures ReplaceAll(Render(a) + s, Wrap(k), e) == Render(Fill(a, map[k := e])) + ReplaceAll(s, Wrap(k), e)
  {
    if a == [] {
      assert "" + s == s && "" + ReplaceAll(s, Wrap(k), e) == ReplaceAll(s, Wrap(k), e);
    } else {
      var rest, filled, after := Render(a[1..]) + s, Render(Fill(a[1..], map[k := e])), ReplaceAll(s, Wrap(k), e);
      ClashLater(a, x, k);
      assert ValidPiece(a[0]);
      PrefixStep(a[1..], x, k, e, s);
      RenderFill(a, map[k := e]);
      SeqAssoc(RenderPiece(a[0]), Render(a[1..]), s);
      SeqAssoc(RenderPiece(FillPiece(a[0], map[k := e])), filled, after);
      if a[0].Literal? {
        ReplaceAfterPlain(a[0].text, rest, k, e);
      } else if a[0].name == k {
        ReplaceAtKey(k, rest, e);
      } else {
        PrefixStepKey(a[1..], x, a[0].name, k, e, s, filled, after);
      }
    }
  }

  lemma {:induction false} ClashLater(a: seq<Piece>, x: string, k: string)
    requires a != [] && !Clash(a + [Key(x)], k)
    ensures !Clash(a[1..] + [Key(x)], k)
    ensures a[0].Key? && a[0].name != k ==> Gap(a[1..] + [Key(x)]) != k
  {
    assert (a + [Key(x)])[1..] == a[1..] + [Key(x)];
    HasLastKey(a[1..], x);
  }

  lemma {:induction false} HasLastKey(a: seq<Piece>, x: string)
    ensures HasKey(a + [Key(x)])
  {
    if a != [] {
      assert (a + [Key(x)])[1..] == a[1..] + [Key(x)];
      HasLastKey(a[1..], x);
    }
  }

  lemma ClosingStays(a: seq<Piece>, x: string, k: string, s: string)
    requires ValidTemplate(a) && ValidName(k) && StartsWithSign(s) && Gap(a + [Key(x)]) != k
    ensures !IsPrefix(Wrap(k), [PERCENT] + (Render(a) + s))
  {
    var rest := GapThen(a, x, s);
    GapOfMore(a, x);
    MatchAtKey(Gap(a + [Key(x)]), k, rest);
    assert [PERCENT] + (Render(a) + s) == Wrap(Gap(a + [Key(x)])) + rest;
  }

  lemma {:induction false} GapOfMore(a: seq<Piece>, x: string)
    requires ValidTemplate(a)
    ensures Plain(Gap(a + [Key(x)]))
  {
    if a != [] {
      assert (a + [Key(x)])[1..] == a[1..] + [Key(x)] && ValidPiece(a[0]);
      GapOfMore(a[1..], x);
    }
  }

  predicate Opens(s: string, y: string) {
    IsPrefix([PERCENT] + y, s)
  }

  /** At every point of the run the text starts with a percent sign and y. */
  predicate Keeps(order: seq<Entry>, s: string, y: string) {
    Opens(s, y) && (order == [] || Keeps(order[1..], ReplaceAll(s, Wrap(order[0].name), order[0].value), y))
  }

  lemma FaithfulStep(q: Entry, rest: seq<Entry>, a: seq<Piece>, x: string)
    requires ValidTemplate(a) && ValidName(x) && ValidName(q.name) && Plain(q.value)
    requires Faithful([q] + rest, a + [Key(x)])
    ensures !Clash(a + [Key(x)], q.name)
    ensures q.name != x ==> Faithful(rest, Fill(a, map[q.name := q.value]) + [Key(x)])
  {
    var t := a + [Key(x)];
    assert ([q] + rest)[1..] == rest;
    assert ValidTemplate(t) by {
      forall p | p in t ensures ValidPiece(p) {
        assert p in a || p == Key(x);
      }
    }
    ReplaceIsFill(t, q.name, q.value);
    FillConcat(a, [Key(x)], map[q.name := q.value]);
    assert q.name != x ==> Fill([Key(x)], map[q.name := q.value]) == [Key(x)];
  }

  lemma OpensWithKey(a: seq<Piece>, s: string)
    requires a != [] && a[0].Key?
    ensures Opens(Render(a) + s, "")
  {
    assert (Render(a) + s)[0] == Wrap(a[0].name)[0];
  }

  lemma PrefixRunStep(q: Entry, rest: seq<Entry>, a: seq<Piece>, x: string, s: string, values: map<string, string>)
    requires ValidTemplate(a) && ValidName(x) && ValidValues(values) && q.name in values && values[q.name] == q.value
    requires Faithful([q] + rest, a + [Key(x)]) && StartsWithSign(s)
    ensures var filled := Fill(a, map[q.name := q.value]);
            && ReplaceAll(Render(a) + s, Wrap(q.name), q.value) == Render(filled) + ReplaceAll(s, Wrap(q.name), q.value)
            && ValidTemplate(filled) && Fill(filled, values - {q.name}) == Fill(a, values)
            && (q.name != x ==> Faithful(rest, filled + [Key(x)]))
            && (a != [] && a[0].Key? && a[0].name !in values ==>
                  filled != [] && filled[0] == a[0] && Opens(Render(filled) + ReplaceAll(s, Wrap(q.name), q.value), ""))
  {
    if a != [] && a[0].Key? && a[0].name !in values {
      OpensWithKey(Fill(a, map[q.name := q.value]), ReplaceAll(s, Wrap(q.name), q.value));
    }
    FaithfulStep(q, rest, a, x);
    PrefixStep(a, x, q.name, q.value, s);
    FillTwice(a, values, q.name);
    FillValid(a, map[q.name := q.value]);
  }

  /** The run splits where the second part always starts with a percent sign, given that the first part followed
      by a key x is replaced faithfully and that x is replaced last or not at all. */
  lemma {:induction false} PrefixRun(
    order: seq<Entry>, a: seq<Piece>, x: string, s: string, y: string, values: map<string, string>)
    requires ValidTemplate(a) && ValidName(x) && ValidValues(values) && Enumerates(order, values)
    requires Faithful(order, a + [Key(x)]) && Keeps(order, s, y)
    requires forall i | 0 <= i < |order| - 1 :: order[i].name != x
    ensures Run(order, Render(a) + s) == Render(Fill(a, values)) + Run(order, s)
    ensures a != [] && a[0].Key? && a[0].name !in values ==> Keeps(order, Render(a) + s, "")
    decreases |order|
  {
    if a != [] && a[0].Key? {
      OpensWithKey(a, s);
    }
    if order == [] {
      FillNothing(a);
    } else {
      var q := order[0];
      assert order == [q] + order[1..];
      PrefixRunStep(q, order[1..], a, x, s, values);
      if |order| > 1 {
        PrefixRun(
          order[1..], Fill(a, map[q.name := q.value]), x, ReplaceAll(s, Wrap(q.name), q.value), y, values - {q.name});
      } else {
        FillNothing(Fill(a, map[q.name := q.value]));
      }
    }
  }

  // ---------------------------------------------------------------- orders that keep the next name

  /** A name that is not the replaced one stays after its percent sign. */
  lemma NameStays(y: string, w: string, k: string, e: string)
    requires Plain(y) && ValidName(k) && (w == "" || StartsWithSign(w)) && y != k
    ensures ReplaceAll([PERCENT] + y + w, Wrap(k), e) == [PERCENT] + y + ReplaceAll(w, Wrap(k), e)
  {
    var s := [PERCENT] + y + w;
    if w == "" {
      assert s == [PERCENT] + y;
      NoMatchInPlain(y, k);
    } else {
      assert s == Wrap(y) + w[1..];
      MatchAtKey(y, k, w[1..]);
    }
    assert s[0] == PERCENT && s[1..] == y + w;
    ReplaceAfterPlain(y, w, k, e);
  }

  lemma OneMatch(w: string, a: string, b: string)
    requires IsPrefix(Wrap(a), w) && IsPrefix(Wrap(b), w) && Plain(a) && Plain(b)
    ensures a == b
  {
    assert w == Wrap(a) + w[|Wrap(a)|..];
    MatchAtKey(a, b, w[|Wrap(a)|..]);
  }

  lemma SignStays(w: string, k: string, e: string)
    requires (w == "" || StartsWithSign(w)) && !IsPrefix(Wrap(k), w)
    ensures ReplaceAll(w, Wrap(k), e) == "" || StartsWithSign(ReplaceAll(w, Wrap(k), e))
  {
  }

  /** Some order leaves a name that is not replaced: the key that follows it closely comes last. */
  lemma {:induction false} SafeOrder(values: map<string, string>, y: string, w: string) returns (order: seq<Entry>)
    requires ValidValues(values) && Plain(y) && y !in values && (w == "" || StartsWithSign(w))
    ensures Enumerates(order, values) && Keeps(order, [PERCENT] + y + w, y)
    decreases |values|
  {
    if values == map[] {
      order := [];
    } else {
      var a :| a in values;
      var q := a;
      if IsPrefix(Wrap(a), w) && exists b :: b in values && b != a {
        var b :| b in values && b != a;
        q := b;
        if IsPrefix(Wrap(b), w) {
          OneMatch(w, a, b);
        }
      }
      NameStays(y, w, q, values[q]);
      var w' := ReplaceAll(w, Wrap(q), values[q]);
      if IsPrefix(Wrap(q), w) {
        assert values - {q} == map[];
        order := [Entry(q, values[q])];
      } else {
        SignStays(w, q, values[q]);
        DropSmaller(values, q);
        var rest := SafeOrder(values - {q}, y, w');
        order := [Entry(q, values[q])] + rest;
      }
    }
  }

  /** Keys shorter than the name never match it, whatever it grows to. */
  lemma {:induction false} ShortKeeps(order: seq<Entry>, s: string, y: string)
    requires Opens(s, y) && Plain(y) && forall a | a in order :: ValidName(a.name) && |a.name| < |y|
    ensures Keeps(order, s, y)
    decreases |order|
  {
    if order != [] {
      var q, e, w := order[0].name, order[0].value, s[|y| + 1..];
      assert s == [PERCENT] + y + w;
      assert forall i | 0 < i <= |y| :: s[i] == y[i - 1] && y[i - 1] in y;
      assert s[|q| + 1] != PERCENT == Wrap(q)[|q| + 1];
      assert s[0] == PERCENT && s[1..] == y + w;
      ReplaceAfterPlain(y, w, q, e);
      ShortKeeps(order[1..], ReplaceAll(s, Wrap(q), e), y);
    }
  }

  lemma {:induction false} KeepsEnds(order: seq<Entry>, s: string, y: string)
    requires Keeps(order, s, y)
    ensures Opens(Run(order, s), y)
    decreases |order|
  {
    if order != [] {
      KeepsEnds(order[1..], ReplaceAll(s, Wrap(order[0].name), order[0].value), y);
    }
  }

  lemma {:induction false} KeepsConcat(a: seq<Entry>, b: seq<Entry>, s: string, y: string)
    requires Keeps(a, s, y) && Keeps(b, Run(a, s), y)
    ensures Keeps(a + b, s, y) && Run(a + b, s) == Run(b, Run(a, s))
    decreases |a|
  {
    if a == [] {
      assert a + b == b;
    } else {
      assert (a + b)[1..] == a[1..] + b;
      KeepsConcat(a[1..], b, ReplaceAll(s, Wrap(a[0].name), a[0].value), y);
    }
  }

  lemma {:induction false} EnumeratesConcat(
    a: seq<Entry>, b: seq<Entry>, va: map<string, string>, vb: map<string, string>, values: map<string, string>)
    requires Enumerates(a, va) && Enumerates(b, vb) && va.Keys !! vb.Keys && values == va + vb
    ensures Enumerates(a + b, values)
    decreases |a|
  {
    if a == [] {
      assert a + b == b && va + vb == vb;
    } else {
      assert (a + b)[1..] == a[1..] + b;
      assert values - {a[0].name} == (va - {a[0].name}) + vb;
      EnumeratesConcat(a[1..], b, va - {a[0].name}, vb, values - {a[0].name});
    }
  }

  lemma {:induction false} KeepsSign(order: seq<Entry>, s: string, y: string)
    requires Keeps(order, s, y)
    ensures Keeps(order, s, "")
    decreases |order|
  {
    assert s[0] == ([PERCENT] + y)[0];
    if order != [] {
      KeepsSign(order[1..], ReplaceAll(s, Wrap(order[0].name), order[0].value), y);
    }
  }

  lemma {:induction false} EnumeratedNames(order: seq<Entry>, values: map<string, string>)
    requires Enumerates(order, values)
    ensures forall a | a in order :: a.name in values
    decreases |order|
  {
    if order != [] {
      EnumeratedNames(order[1..], values - {order[0].name});
      assert forall a | a in order :: a == order[0] || a in order[1..];
    }
  }

  // ---------------------------------------------------------------- the order that goes wrong

  /** Some order with n, if it has a value, last. */
  lemma LastOrder(values: map<string, string>, n: string) returns (order: seq<Entry>)
    ensures Enumerates(order, values) && forall i | 0 <= i < |order| - 1 :: order[i].name != n
  {
    order := SomeOrder(values - {n});
    EnumeratedNames(order, values - {n});
    if n in values {
      var last := [Entry(n, values[n])];
      assert map[n := values[n]] - {n} == map[] && last[1..] == [];
      EnumeratesConcat(order, last, values - {n}, map[n := values[n]], values);
      order := order + last;
    } else {
      assert values - {n} == values;
    }
  }

  /** Once the text after the key n spells k, replacing k joins n, the value and the next name. */
  lemma Joined(n: string, k: string, e: string, m: string, s: string)
    requires ValidName(n) && ValidName(k) && Plain(m) && n != k && Opens(s, m)
    ensures Opens(ReplaceAll(Wrap(n) + (k + s), Wrap(k), e), n + e + m)
  {
    var w := s[|m| + 1..];
    assert s == [PERCENT] + (m + w);
    ReplaceAtOther(n, k + s, k, e);
    assert [PERCENT] + (k + s) == Wrap(k) + (m + w);
    ReplaceAtKey(k, m + w, e);
    ReplaceAfterPlain(m, w, k, e);
    var after := ReplaceAll(w, Wrap(k), e);
    SeqAssoc(e, m, after);
    SeqAssoc([PERCENT] + n, e + m, after);
    SeqAssoc([PERCENT], n, e + m);
    SeqAssoc(n, e, m);
  }

  lemma {:induction false} PassesFill(pieces: seq<Piece>, values: map<string, string>, n: string, k: string, m: string)
    requires Passes(pieces, values, n, k, m)
    ensures Fill(pieces, values - {n, m, k}) == Fill(pieces, values)
  {
    if pieces != [] {
      PassesFill(pieces[1..], values, n, k, m);
    }
  }

  /** Replacing all names but n, k and m, in some order, lets the text after n spell k, before the name m. */
  lemma FirstPart(n: string, mid: seq<Piece>, m: string, after: string, k: string, values: map<string, string>)
    returns (order: seq<Entry>, s: string)
    requires ValidTemplate(mid) && ValidName(n) && ValidName(m) && ValidValues(values)
    requires Passes(mid, values, n, k, m) && Render(Fill(mid, values)) == k
    requires Unambiguous([Key(n)] + mid + [Key(m)], values - {n, m, k})
    ensures var start := Render([Key(n)] + mid) + (Wrap(m) + after);
            Enumerates(order, values - {n, m, k}) && Keeps(order, start, "")
            && Run(order, start) == Wrap(n) + (k + s) && Opens(s, m)
  {
    var a, others := [Key(n)] + mid, values - {n, m, k};
    order := SafeOrder(others, m, [PERCENT] + after);
    var next := [PERCENT] + m + ([PERCENT] + after);
    assert next == Wrap(m) + after;
    assert ValidTemplate(a + [Key(m)]) && ValidTemplate(a);
    UnambiguousIsFaithful(order, a + [Key(m)], others);
    EnumeratedNames(order, others);
    PrefixRun(order, a, m, next, m, others);
    KeepsEnds(order, next, m);
    s := Run(order, next);
    FillConcat([Key(n)], mid, others);
    PassesFill(mid, values, n, k, m);
    assert Fill([Key(n)], others) == [Key(n)];
    assert Fill(a, others)[1..] == Fill(mid, values);
    SeqAssoc(Wrap(n), k, s);
  }

  /** Then k, m and last n are replaced; the joined text is longer than the names left and stays. */
  lemma SecondPart(n: string, m: string, k: string, s: string, values: map<string, string>) returns (order: seq<Entry>)
    requires ValidName(n) && ValidName(m) && ValidValues(values) && values.Keys <= {n, m, k} && k in values && k != n
    requires Opens(s, m)
    ensures Enumerates(order, values) && (forall i | 0 <= i < |order| - 1 :: order[i].name != n)
    ensures Keeps(order, Wrap(n) + (k + s), "") && Opens(Run(order, Wrap(n) + (k + s)), n + values[k] + m)
  {
    var y := n + values[k] + m;
    Joined(n, k, values[k], m, s);
    var joined := ReplaceAll(Wrap(n) + (k + s), Wrap(k), values[k]);
    var last := LastOrder(values - {k}, n);
    EnumeratedNames(last, values - {k});
    ShortKeeps(last, joined, y);
    KeepsEnds(last, joined, y);
    KeepsSign(last, joined, y);
    order := [Entry(k, values[k])] + last;
    assert order[1..] == last;
  }

  lemma SplitMap(values: map<string, string>, keys: set<string>)
    ensures (values - keys).Keys !! (values - (values - keys).Keys).Keys
    ensures values == (values - (values - keys).Keys) + (values - keys)
  {
  }

  /** The whole order, from the key n on: at the end n, the value of k and m still stand joined. */
  lemma {:induction false} Unrepaired(
    n: string, mid: seq<Piece>, m: string, after: string, k: string, values: map<string, string>)
    returns (order: seq<Entry>)
    requires ValidTemplate(mid) && ValidName(n) && ValidName(m) && ValidValues(values) && k in values && k != n
    requires Passes(mid, values, n, k, m) && Render(Fill(mid, values)) == k
    requires Unambiguous([Key(n)] + mid + [Key(m)], values - {n, m, k})
    ensures var start := Render([Key(n)] + mid) + (Wrap(m) + after);
            Enumerates(order, values) && (forall i | 0 <= i < |order| - 1 :: order[i].name != n)
            && Keeps(order, start, "") && Opens(Run(order, start), n + values[k] + m)
  {
    var others := values - {n, m, k};
    var first, s := FirstPart(n, mid, m, after, k, values);
    var second := SecondPart(n, m, k, s, values - others.Keys);
    EnumeratedNames(first, others);
    SplitMap(values, others.Keys);
    assert values - (values - others.Keys).Keys == others;
    KeepsConcat(first, second, Render([Key(n)] + mid) + (Wrap(m) + after), "");
    EnumeratesConcat(first, second, others, values - others.Keys, values);
    order := first + second;
  }

  /** The joined text is not what the template says there. */
  lemma NotIntended(
    n: string, mid: seq<Piece>, rest: seq<Piece>, k: string, y: string, s: string, values: map<string, string>)
    requires ValidName(n) && ValidValues(values) && k in values && Render(Fill(mid, values)) == k
    requires Plain(y) && |y| > |n| && Opens(s, y)
    ensures s != Render(Fill([Key(n)] + mid + rest, values))
  {
    FillConcat([Key(n)] + mid, rest, values);
    FillConcat([Key(n)], mid, values);
    RenderConcat(Fill([Key(n)] + mid, values), Fill(rest, values));
    RenderConcat(Fill([Key(n)], values), Fill(mid, values));
    var filled := FillPiece(Key(n), values);
    assert Fill([Key(n)], values) == [filled] && Render([filled]) == RenderPiece(filled) + "";
    var intended := Render(Fill([Key(n)] + mid + rest, values));
    assert intended == RenderPiece(filled) + k + Render(Fill(rest, values));
    assert s[0] == ([PERCENT] + y)[0] == PERCENT;
    if n in values {
      assert intended[0] == (values[n] + k)[0];
      assert intended[0] in values[n] || intended[0] in k;
    } else {
      assert intended[|n| + 1] == PERCENT;
      assert s[|n| + 1] == ([PERCENT] + y)[|n| + 1] == y[|n|] && y[|n|] in y;
    }
  }

  /** An ambiguous template holds a key n, text that can come to spell a key k, and a key m, such that nothing is
      spelled before m without n, nor between. */
  lemma {:induction false} Shortest(t: seq<Piece>, values: map<string, string>) returns (i: nat, r: nat, k: string)
    requires !Unambiguous(t, values)
    ensures i < r < |t| && t[i].Key? && t[r].Key? && k in values && k != t[i].name
    ensures Passes(t[i + 1..r], values, t[i].name, k, t[r].name) && Render(Fill(t[i + 1..r], values)) == k
    ensures Unambiguous(t[..i + 1], values)
    ensures Unambiguous([t[i]] + t[i + 1..r] + [t[r]], values - {t[i].name, t[r].name, k})
  {
    r := ShortestPrefix(t, values);
    var shortest := t[..r + 1];
    i := ShortestSuffix(shortest, values);
    k :| k in values && Spelled(shortest[i..], values, k);
    assert shortest[i..][1..] == shortest[i + 1..] && shortest[i..][0] == t[i];
    assert Reaches(shortest[i + 1..], values, t[i].name, k, "", {});
    assert shortest[i + 1..] == t[i + 1..r] + [t[r]];
    NothingSpelled(t, i, r, values);
    PassesAll(t[i + 1..r], t[r], values, t[i].name, k, "", {});
    forall j | j in values && j !in {t[i].name, t[r].name, k}
      ensures !Spelled([t[i]] + t[i + 1..r] + [t[r]], values - {t[i].name, t[r].name, k}, j) {
      OnlyOneSpelled(t[i].name, t[i + 1..r], t[r], k, j, values, values - {t[i].name, t[r].name, k});
    }
  }

  lemma NothingSpelled(t: seq<Piece>, i: nat, r: nat, values: map<string, string>)
    requires i < r < |t| && Unambiguous(t[..r], values)
    ensures Unambiguous(t[..i + 1], values) && Unambiguous(t[i..r], values)
    ensures t[i].Key? ==> forall k | k in values && k != t[i].name ::
              !Reaches(t[i + 1..r], values, t[i].name, k, "", {})
  {
    assert t[..i + 1] + t[i + 1..r] == t[..r] && t[..i] + t[i..r] == t[..r];
    forall k | k in values ensures !Spelled(t[..i + 1], values, k) && !Spelled(t[i..r], values, k) {
      if Spelled(t[..i + 1], values, k) {
        SpelledMore(t[..i + 1], t[i + 1..r], values, values, k);
      }
      if Spelled(t[i..r], values, k) {
        SpelledBehind(t[..i], t[i..r], values, k);
      }
    }
    assert t[i..r][1..] == t[i + 1..r];
  }

  lemma {:induction false} SpelledBehind(a: seq<Piece>, b: seq<Piece>, values: map<string, string>, k: string)
    requires Spelled(b, values, k)
    ensures Spelled(a + b, values, k)
  {
    if a == [] {
      assert a + b == b;
    } else {
      assert (a + b)[1..] == a[1..] + b;
      SpelledBehind(a[1..], b, values, k);
    }
  }

  lemma OnlyOneSpelled(
    n: string, mid: seq<Piece>, last: Piece, k: string, j: string, values: map<string, string>,
    some: map<string, string>)
    requires forall p | p in some :: p in values && values[p] == some[p]
    requires Unambiguous(mid + [last], values) && !Reaches(mid, values, n, j, "", {})
    requires Render(Fill(mid, values)) == k && j in values && j != k
    ensures !Spelled([Key(n)] + mid + [last], some, j)
  {
    var t := [Key(n)] + mid + [last];
    assert t[1..] == mid + [last] == mid + [last] + [];
    if Spelled(t, some, j) {
      if Spelled(mid + [last], some, j) {
        SpelledMore(mid + [last], [], some, values, j);
      } else {
        ReachesMore(mid + [last], [], some, values, n, j, "", {});
        PassesAll(mid, last, values, n, j, "", {});
      }
    }
  }

  /** What comes before the key n is filled as intended, so what follows decides. */
  lemma Apart(
    before: seq<Piece>, n: string, rest: seq<Piece>, order: seq<Entry>, values: map<string, string>)
    requires ValidTemplate(before) && ValidName(n) && ValidValues(values) && Enumerates(order, values)
    requires Unambiguous(before + [Key(n)], values) && forall i | 0 <= i < |order| - 1 :: order[i].name != n
    requires Keeps(order, Render(rest), "") && Run(order, Render(rest)) != Render(Fill(rest, values))
    ensures Run(order, Render(before + rest)) != Render(Fill(before + rest, values))
  {
    assert ValidTemplate(before + [Key(n)]);
    UnambiguousIsFaithful(order, before + [Key(n)], values);
    PrefixRun(order, before, n, Render(rest), "", values);
    RenderConcat(before, rest);
    FillConcat(before, rest, values);
    RenderConcat(Fill(before, values), Fill(rest, values));
    SameHead(Render(Fill(before, values)), Run(order, Render(rest)), Render(Fill(rest, values)));
  }

  lemma GoesWrongFrom(n: string, mid: seq<Piece>, m: string, after: seq<Piece>, k: string, values: map<string, string>)
    returns (order: seq<Entry>)
    requires ValidTemplate(mid) && ValidName(n) && ValidName(m) && ValidValues(values) && k in values && k != n
    requires Passes(mid, values, n, k, m) && Render(Fill(mid, values)) == k
    requires Unambiguous([Key(n)] + mid + [Key(m)], values - {n, m, k})
    ensures var rest := [Key(n)] + mid + ([Key(m)] + after);
            Enumerates(order, values) && (forall i | 0 <= i < |order| - 1 :: order[i].name != n)
            && Keeps(order, Render(rest), "") && Run(order, Render(rest)) != Render(Fill(rest, values))
  {
    order := Unrepaired(n, mid, m, Render(after), k, values);
    RenderConcat([Key(n)] + mid, [Key(m)] + after);
    assert ([Key(m)] + after)[1..] == after;
    var rest := [Key(n)] + mid + ([Key(m)] + after);
    NotIntended(n, mid, [Key(m)] + after, k, n + values[k] + m, Run(order, Render(rest)), values);
  }

  lemma PartsValid(t: seq<Piece>, i: nat, r: nat)
    requires ValidTemplate(t) && i < r < |t| && t[i].Key? && t[r].Key?
    ensures ValidName(t[i].name) && ValidName(t[r].name) && ValidTemplate(t[..i]) && ValidTemplate(t[i + 1..r])
    ensures t == t[..i] + ([Key(t[i].name)] + t[i + 1..r] + ([Key(t[r].name)] + t[r + 1..]))
  {
    assert ValidPiece(t[i]) && ValidPiece(t[r]);
  }

  lemma AmbiguousGoesWrong(t: seq<Piece>, values: map<string, string>) returns (order: seq<Entry>)
    requires ValidTemplate(t) && ValidValues(values) && !Unambiguous(t, values)
    ensures Enumerates(order, values) && Run(order, Render(t)) != Render(Fill(t, values))
  {
    var i, r, k := Shortest(t, values);
    PartsValid(t, i, r);
    var n, m := t[i].name, t[r].name;
    assert t[i] == Key(n) && t[r] == Key(m);
    order := GoesWrongFrom(n, t[i + 1..r], m, t[r + 1..], k, values);
    assert t[..i + 1] == t[..i] + [Key(n)];
    Apart(t[..i], n, [Key(n)] + t[i + 1..r] + ([Key(m)] + t[r + 1..]), order, values);
  }

  /** Filling gives the intended text in every order of the mapping exactly when the template is unambiguous. */
  lemma IntendedExactly(t: seq<Piece>, values: map<string, string>)
    requires ValidTemplate(t) && ValidValues(values)
    ensures Unambiguous(t, values)
            <==> forall order | Enumerates(order, values) :: Run(order, Render(t)) == Render(Fill(t, values))
  {
    if Unambiguous(t, values) {
      forall order | Enumerates(order, values) ensures Run(order, Render(t)) == Render(Fill(t, values)) {
        SimultaneousSubstitution(order, t, values);
      }
    } else {
      var order := AmbiguousGoesWrong(t, values);
    }
  }
}

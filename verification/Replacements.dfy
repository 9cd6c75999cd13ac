/** Filling command templates: every key of the mapping is replaced in turn, in whatever order the map is
    ranged over (internal/controller/package.go). */
module Replacements {
  import opened Text
  import opened CommandLine

  const PERCENT: char := '%'

  // ---------------------------------------------------------------- replacing one key

  /** Go's strings.ReplaceAll. */
  function ReplaceAll(s: string, from: string, to: string): string
    decreases |s|
  {
    if from == "" then to + Interleaved(s, to)
    else if IsPrefix(from, s) then to + ReplaceAll(s[|from|..], from, to)
    else if s == "" then ""
    else [s[0]] + ReplaceAll(s[1..], from, to)
  }

  /** Replacing the empty string puts the replacement after every character. */
  function Interleaved(s: string, to: string): string {
    if s == "" then "" else [s[0]] + to + Interleaved(s[1..], to)
  }

  predicate At(s: string, i: nat, from: string) {
    i + |from| <= |s| && s[i..i + |from|] == from
  }

  lemma AtTail(s: string, i: nat, from: string)
    requires s != ""
    ensures At(s[1..], i, from) <==> At(s, i + 1, from)
  {
    if i + 1 + |from| <= |s| {
      assert s[i + 1..i + 1 + |from|] == s[1..][i..i + |from|];
    }
  }

  lemma ReplacedHere(s: string, from: string, to: string)
    requires from != "" && At(s, 0, from)
    ensures ReplaceAll(s, from, to) == to + ReplaceAll(s[|from|..], from, to)
  {
    assert s[0..0 + |from|] == s[..|from|];
  }

  lemma NotReplacedHere(s: string, from: string, to: string)
    requires from != "" && s != "" && !At(s, 0, from)
    ensures ReplaceAll(s, from, to) == [s[0]] + ReplaceAll(s[1..], from, to)
  {
    if |from| <= |s| {
      assert s[0..0 + |from|] == s[..|from|];
    }
  }

  lemma TakeLater(s: string, i: nat, after: string)
    requires 0 < i <= |s|
    ensures [s[0]] + (s[1..][..i - 1] + after) == s[..i] + after && s[1..][i - 1..] == s[i..]
  {
    assert s[..i] == [s[0]] + s[1..][..i - 1];
    SeqAssoc([s[0]], s[1..][..i - 1], after);
  }

  /** What stands before the first occurrence stays. */
  lemma {:induction false} KeptBefore(s: string, i: nat, from: string, to: string)
    requires from != "" && i <= |s| && forall j | 0 <= j < i :: !At(s, j, from)
    ensures ReplaceAll(s, from, to) == s[..i] + ReplaceAll(s[i..], from, to)
    decreases i
  {
    var after := ReplaceAll(s[i..], from, to);
    if i == 0 {
      assert s[0..] == s && s[..0] + after == after;
    } else {
      forall j | 0 <= j < i - 1 ensures !At(s[1..], j, from) {
        AtTail(s, j, from);
      }
      NotReplacedHere(s, from, to);
      KeptBefore(s[1..], i - 1, from, to);
      TakeLater(s, i, after);
    }
  }

  /** The first occurrence is replaced, and what follows it treated in the same way. */
  lemma ReplacedFirst(s: string, i: nat, from: string, to: string)
    requires from != "" && At(s, i, from) && forall j | 0 <= j < i :: !At(s, j, from)
    ensures ReplaceAll(s, from, to) == s[..i] + (to + ReplaceAll(s[i + |from|..], from, to))
  {
    KeptBefore(s, i, from, to);
    assert s[i..][0..0 + |from|] == s[i..i + |from|] && s[i..][|from|..] == s[i + |from|..];
    ReplacedHere(s[i..], from, to);
  }

  lemma {:induction false} ReplacedNowhere(s: string, from: string, to: string)
    requires from != "" && forall i | 0 <= i < |s| :: !At(s, i, from)
    ensures ReplaceAll(s, from, to) == s
    decreases |s|
  {
    if s != "" {
      NotReplacedHere(s, from, to);
      forall i | 0 <= i < |s[1..]| ensures !At(s[1..], i, from) {
        AtTail(s, i, from);
      }
      ReplacedNowhere(s[1..], from, to);
    }
  }

  /** The empty string occurs before every character and at the end. */
  lemma ReplacedEmpty(c: char, s: string, to: string)
    ensures ReplaceAll([c] + s, "", to) == to + [c] + ReplaceAll(s, "", to) && ReplaceAll("", "", to) == to
  {
    assert ([c] + s)[1..] == s;
    assert to + ([c] + to + Interleaved(s, to)) == to + [c] + (to + Interleaved(s, to));
    assert to + "" == to;
  }

  predicate Plain(s: string) {
    PERCENT !in s
  }

  /** The text that stands for a name. */
  function Wrap(name: string): string {
    [PERCENT] + name + [PERCENT]
  }

  // ---------------------------------------------------------------- templates

  /** A template is literal text and keys. */
  datatype Piece = Literal(text: string) | Key(name: string)

  predicate ValidName(name: string) {
    name != "" && Plain(name)
  }

  predicate ValidPiece(p: Piece) {
    match p
    case Literal(text) => Plain(text)
    case Key(name) => ValidName(name)
  }

  predicate ValidTemplate(t: seq<Piece>) {
    forall p | p in t :: ValidPiece(p)
  }

  function RenderPiece(p: Piece): string {
    match p
    case Literal(text) => text
    case Key(name) => Wrap(name)
  }

  function Render(t: seq<Piece>): string {
    if t == [] then "" else RenderPiece(t[0]) + Render(t[1..])
  }

  function FillPiece(p: Piece, values: map<string, string>): Piece {
    if p.Key? && p.name in values then Literal(values[p.name]) else p
  }

  /** Simultaneous substitution. */
  function Fill(t: seq<Piece>, values: map<string, string>): seq<Piece> {
    if t == [] then [] else [FillPiece(t[0], values)] + Fill(t[1..], values)
  }

  lemma {:induction false} RenderConcat(a: seq<Piece>, b: seq<Piece>)
    ensures Render(a + b) == Render(a) + Render(b)
  {
    if a == [] {
      assert a + b == b;
    } else {
      assert (a + b)[1..] == a[1..] + b;
      RenderConcat(a[1..], b);
    }
  }

  lemma {:induction false} FillConcat(a: seq<Piece>, b: seq<Piece>, values: map<string, string>)
    ensures Fill(a + b, values) == Fill(a, values) + Fill(b, values)
  {
    if a == [] {
      assert a + b == b;
    } else {
      assert (a + b)[1..] == a[1..] + b;
      FillConcat(a[1..], b, values);
    }
  }

  lemma FilledConcat(a: seq<Piece>, b: seq<Piece>, values: map<string, string>)
    ensures Render(Fill(a + b, values)) == Render(Fill(a, values)) + Render(Fill(b, values))
  {
    FillConcat(a, b, values);
    RenderConcat(Fill(a, values), Fill(b, values));
  }

  /** The text before the first key, and whether there is a key at all. */
  function Gap(t: seq<Piece>): string {
    if t == [] || t[0].Key? then "" else t[0].text + Gap(t[1..])
  }

  predicate HasKey(t: seq<Piece>) {
    t != [] && (t[0].Key? || HasKey(t[1..]))
  }

  /** Between another key and the key that follows it, the text spells k: the closing sign of the one and the
      opening sign of the other then read as a key k that the template does not hold. */
  predicate Clash(t: seq<Piece>, k: string) {
    t != [] && ((t[0].Key? && t[0].name != k && HasKey(t[1..]) && Gap(t[1..]) == k) || Clash(t[1..], k))
  }

  // ---------------------------------------------------------------- one replacement

  lemma ReplaceStep(s: string, k: string, e: string)
    requires s != "" && s[0] != PERCENT
    ensures ReplaceAll(s, Wrap(k), e) == [s[0]] + ReplaceAll(s[1..], Wrap(k), e)
  {
    assert Wrap(k)[0] == PERCENT;
    assert !IsPrefix(Wrap(k), s);
  }

  /** No match starts inside plain text. */
  lemma {:induction false} ReplaceAfterPlain(x: string, s: string, k: string, e: string)
    requires Plain(x)
    ensures ReplaceAll(x + s, Wrap(k), e) == x + ReplaceAll(s, Wrap(k), e)
  {
    if x == "" {
      assert x + s == s;
    } else {
      var rest := x[1..];
      assert (x + s)[0] == x[0] && (x + s)[1..] == rest + s && x[0] in x;
      ReplaceStep(x + s, k, e);
      ReplaceAfterPlain(rest, s, k, e);
      SeqAssoc([x[0]], rest, ReplaceAll(s, Wrap(k), e));
      assert [x[0]] + rest == x;
    }
  }

  /** At a key, the match is with the key itself or there is none. */
  lemma MatchAtKey(n: string, k: string, s: string)
    requires Plain(n) && Plain(k)
    ensures IsPrefix(Wrap(k), Wrap(n) + s) <==> n == k
  {
    var text := Wrap(n) + s;
    assert text[|n| + 1] == PERCENT;
    assert forall i | 0 <= i < |n| :: text[i + 1] == n[i];
    if IsPrefix(Wrap(k), text) {
      assert forall i | 0 <= i < |k| :: text[i + 1] == Wrap(k)[i + 1] == k[i];
      assert text[|k| + 1] == Wrap(k)[|k| + 1] == PERCENT;
      assert |n| == |k|;
      assert n == k;
    }
  }

  /** What follows the opening sign of the first key. */
  function PastGap(t: seq<Piece>): string
    requires HasKey(t)
  {
    if t[0].Key? then t[0].name + [PERCENT] + Render(t[1..]) else PastGap(t[1..])
  }

  lemma {:induction false} RenderGap(t: seq<Piece>)
    ensures Render(t) == if HasKey(t) then Gap(t) + [PERCENT] + PastGap(t) else Gap(t)
  {
    if t != [] {
      if t[0].Key? {
        assert Render(t) == [PERCENT] + PastGap(t);
      } else {
        RenderGap(t[1..]);
        assert Gap(t) == t[0].text + Gap(t[1..]);
      }
    }
  }

  lemma {:induction false} GapPlain(t: seq<Piece>)
    requires ValidTemplate(t)
    ensures Plain(Gap(t))
  {
    if t != [] && t[0].Literal? {
      assert ValidPiece(t[0]);
      GapPlain(t[1..]);
    }
  }

  /** At the closing sign of a key, a match reads the text up to the next key as a name. */
  lemma MatchAtClosing(t: seq<Piece>, k: string)
    requires ValidTemplate(t) && Plain(k)
    ensures IsPrefix(Wrap(k), [PERCENT] + Render(t)) <==> HasKey(t) && Gap(t) == k
  {
    GapPlain(t);
    RenderGap(t);
    if HasKey(t) {
      assert [PERCENT] + Render(t) == Wrap(Gap(t)) + PastGap(t);
      MatchAtKey(Gap(t), k, PastGap(t));
    } else {
      NoMatchInPlain(Gap(t), k);
    }
  }

  lemma NoMatchInPlain(x: string, k: string)
    requires Plain(x)
    ensures !IsPrefix(Wrap(k), [PERCENT] + x)
  {
    var s := [PERCENT] + x;
    assert forall i | 0 < i < |s| :: s[i] == x[i - 1] && x[i - 1] in x;
    assert Wrap(k)[|k| + 1] == PERCENT;
  }

  lemma ReplaceAtKey(k: string, s: string, e: string)
    requires Plain(k)
    ensures ReplaceAll(Wrap(k) + s, Wrap(k), e) == e + ReplaceAll(s, Wrap(k), e)
  {
    MatchAtKey(k, k, s);
    assert (Wrap(k) + s)[|Wrap(k)|..] == s;
  }

  /** At a key of another name, everything up to its closing sign stays. */
  lemma ReplaceAtOther(n: string, s: string, k: string, e: string)
    requires Plain(n) && Plain(k) && n != k
    ensures ReplaceAll(Wrap(n) + s, Wrap(k), e) == [PERCENT] + n + ReplaceAll([PERCENT] + s, Wrap(k), e)
  {
    MatchAtKey(n, k, s);
    var text, closing := Wrap(n) + s, [PERCENT] + s;
    assert text[0] == PERCENT && text[1..] == n + closing;
    ReplaceAfterPlain(n, closing, k, e);
  }

  lemma ReplacePastClosing(t: seq<Piece>, k: string, e: string)
    requires ValidTemplate(t) && Plain(k) && !(HasKey(t) && Gap(t) == k)
    ensures ReplaceAll([PERCENT] + Render(t), Wrap(k), e) == [PERCENT] + ReplaceAll(Render(t), Wrap(k), e)
  {
    MatchAtClosing(t, k);
    var s := [PERCENT] + Render(t);
    assert s[0] == PERCENT && s[1..] == Render(t);
  }

  lemma RenderFill(t: seq<Piece>, values: map<string, string>)
    requires t != []
    ensures Render(Fill(t, values)) == RenderPiece(FillPiece(t[0], values)) + Render(Fill(t[1..], values))
  {
    assert Fill(t, values)[1..] == Fill(t[1..], values);
  }

  lemma SameHead(a: string, b: string, c: string)
    ensures a + b == a + c ==> b == c
  {
    assert (a + b)[|a|..] == b && (a + c)[|a|..] == c;
  }

  predicate StartsWithSign(s: string) {
    s != "" && s[0] == PERCENT
  }

  /** Past the opening sign of the next key stands its name. */
  lemma {:induction false} NamePastGap(t: seq<Piece>)
    requires ValidTemplate(t) && HasKey(t)
    ensures PastGap(t) != "" && !StartsWithSign(PastGap(t))
  {
    assert ValidPiece(t[0]);
    if t[0].Key? {
      assert PastGap(t)[0] == t[0].name[0] && t[0].name[0] in t[0].name;
    } else {
      NamePastGap(t[1..]);
    }
  }

  /** Where the clash is, the closing sign gives way to the value or to the name of the next key. */
  lemma ReplaceAtClash(t: seq<Piece>, k: string, e: string)
    requires ValidTemplate(t) && Plain(k) && Plain(e) && HasKey(t) && Gap(t) == k
    ensures !StartsWithSign(ReplaceAll([PERCENT] + Render(t), Wrap(k), e))
  {
    var past := PastGap(t);
    RenderGap(t);
    NamePastGap(t);
    assert [PERCENT] + Render(t) == Wrap(k) + past;
    ReplaceAtKey(k, past, e);
    PlainStart(past, k, e);
    NoSignBefore(e, ReplaceAll(past, Wrap(k), e));
  }

  lemma NoSignBefore(e: string, s: string)
    requires Plain(e) && !StartsWithSign(s)
    ensures !StartsWithSign(e + s)
  {
    if e == "" {
      assert e + s == s;
    } else {
      assert (e + s)[0] == e[0] && e[0] in e;
    }
  }

  lemma PlainStart(s: string, k: string, e: string)
    requires s != "" && !StartsWithSign(s)
    ensures !StartsWithSign(ReplaceAll(s, Wrap(k), e))
  {
    assert !IsPrefix(Wrap(k), s);
  }

  lemma ClashAtOther(n: string, t: seq<Piece>, k: string, e: string)
    requires ValidTemplate(t) && ValidName(n) && ValidName(k) && Plain(e) && n != k
    ensures var filled := Render(Fill(t, map[k := e]));
            ReplaceAll(Wrap(n) + Render(t), Wrap(k), e) == Wrap(n) + filled
            <==> !(HasKey(t) && Gap(t) == k) && ReplaceAll(Render(t), Wrap(k), e) == filled
  {
    var filled := Render(Fill(t, map[k := e]));
    ReplaceAtOther(n, Render(t), k, e);
    WrapThen(n, filled);
    SameHead([PERCENT] + n, ReplaceAll([PERCENT] + Render(t), Wrap(k), e), [PERCENT] + filled);
    ClosingDecides(t, k, e, filled);
  }

  lemma WrapThen(n: string, s: string)
    ensures Wrap(n) + s == [PERCENT] + n + ([PERCENT] + s)
  {
  }

  lemma ClosingDecides(t: seq<Piece>, k: string, e: string, filled: string)
    requires ValidTemplate(t) && ValidName(k) && Plain(e)
    ensures ReplaceAll([PERCENT] + Render(t), Wrap(k), e) == [PERCENT] + filled
            <==> !(HasKey(t) && Gap(t) == k) && ReplaceAll(Render(t), Wrap(k), e) == filled
  {
    if HasKey(t) && Gap(t) == k {
      ReplaceAtClash(t, k, e);
      assert StartsWithSign([PERCENT] + filled);
    } else {
      ReplacePastClosing(t, k, e);
      SameHead([PERCENT], ReplaceAll(Render(t), Wrap(k), e), filled);
    }
  }

  /** Replacing a key fills the template exactly when nothing else spells the key. */
  lemma {:induction false} ReplaceIsFill(t: seq<Piece>, k: string, e: string)
    requires ValidTemplate(t) && ValidName(k) && Plain(e)
    ensures ReplaceAll(Render(t), Wrap(k), e) == Render(Fill(t, map[k := e])) <==> !Clash(t, k)
  {
    if t != [] {
      RenderFill(t, map[k := e]);
      assert ValidPiece(t[0]);
      ReplaceIsFill(t[1..], k, e);
      var replaced, filled := ReplaceAll(Render(t[1..]), Wrap(k), e), Render(Fill(t[1..], map[k := e]));
      if t[0].Literal? {
        ReplaceAfterPlain(t[0].text, Render(t[1..]), k, e);
        SameHead(t[0].text, replaced, filled);
      } else if t[0].name == k {
        ReplaceAtKey(k, Render(t[1..]), e);
        SameHead(e, replaced, filled);
      } else {
        ClashAtOther(t[0].name, t[1..], k, e);
      }
    }
  }

  // ---------------------------------------------------------------- all the keys, in some order

  datatype Entry = Entry(name: string, value: string)

  /** The entries are those of the map, each once. */
  predicate Enumerates(order: seq<Entry>, values: map<string, string>) {
    if order == [] then values == map[]
    else
      && order[0].name in values && values[order[0].name] == order[0].value
      && Enumerates(order[1..], values - {order[0].name})
  }

  function Run(order: seq<Entry>, s: string): string {
    if order == [] then s else Run(order[1..], ReplaceAll(s, Wrap(order[0].name), order[0].value))
  }

  /** Every replacement of the run touches the keys of the template and nothing else. */
  predicate Faithful(order: seq<Entry>, t: seq<Piece>) {
    order == [] || (
      var filled := Fill(t, map[order[0].name := order[0].value]);
      && ReplaceAll(Render(t), Wrap(order[0].name), order[0].value) == Render(filled)
      && Faithful(order[1..], filled)
    )
  }

  predicate ValidValues(values: map<string, string>) {
    forall n | n in values :: ValidName(n) && Plain(values[n])
  }

  /** Starting with text after a key n, with the keys of inner already passed, some run replaces just the keys
      up to a later key, and the text before that key then spells k. */
  predicate Reaches(
    t: seq<Piece>, values: map<string, string>, n: string, k: string, text: string, inner: set<string>)
  {
    t != [] &&
    match t[0]
    case Literal(x) => Reaches(t[1..], values, n, k, text + x, inner)
    case Key(p) =>
      || (p !in inner && text == k)
      || (p in values && p != n && p != k && Reaches(t[1..], values, n, k, text + values[p], inner + {p}))
  }

  /** The text between two keys can come to spell k. */
  predicate Spelled(t: seq<Piece>, values: map<string, string>, k: string) {
    t != [] && (
      || (t[0].Key? && t[0].name != k && Reaches(t[1..], values, t[0].name, k, "", {}))
      || Spelled(t[1..], values, k))
  }

  ghost predicate Unambiguous(t: seq<Piece>, values: map<string, string>) {
    forall k | k in values :: !Spelled(t, values, k)
  }

  lemma {:induction false} ClashReaches(t: seq<Piece>, values: map<string, string>, n: string, k: string, text: string)
    requires HasKey(t) && text + Gap(t) == k
    ensures Reaches(t, values, n, k, text, {})
  {
    if t[0].Literal? {
      assert text + Gap(t) == (text + t[0].text) + Gap(t[1..]);
      ClashReaches(t[1..], values, n, k, text + t[0].text);
    }
  }

  lemma {:induction false} ClashIsSpelled(t: seq<Piece>, values: map<string, string>, k: string)
    requires Clash(t, k)
    ensures Spelled(t, values, k)
  {
    if t[0].Key? && t[0].name != k && HasKey(t[1..]) && Gap(t[1..]) == k {
      ClashReaches(t[1..], values, t[0].name, k, "");
    } else {
      ClashIsSpelled(t[1..], values, k);
    }
  }

  /** What is reached after a replacement could be reached before it. */
  lemma {:induction false} ReachesBefore(
    t: seq<Piece>, values: map<string, string>, q: string, n: string, k: string, text: string, inner: set<string>,
    inner': set<string>)
    requires q in values && q != n && q != k && (inner == inner' || inner == inner' + {q})
    requires Reaches(Fill(t, map[q := values[q]]), values - {q}, n, k, text, inner')
    ensures Reaches(t, values, n, k, text, inner)
  {
    var filled := Fill(t, map[q := values[q]]);
    assert filled[1..] == Fill(t[1..], map[q := values[q]]);
    match t[0]
    case Literal(x) => ReachesBefore(t[1..], values, q, n, k, text + x, inner, inner');
    case Key(p) =>
      if p == q {
        ReachesBefore(t[1..], values, q, n, k, text + values[q], inner + {q}, inner');
      } else if !(p !in inner' && text == k) {
        ReachesBefore(t[1..], values, q, n, k, text + values[p], inner + {p}, inner' + {p});
      }
  }

  lemma {:induction false} SpelledBefore(t: seq<Piece>, values: map<string, string>, q: string, k: string)
    requires q in values && q != k && Spelled(Fill(t, map[q := values[q]]), values - {q}, k)
    ensures Spelled(t, values, k)
  {
    var filled := Fill(t, map[q := values[q]]);
    assert filled[1..] == Fill(t[1..], map[q := values[q]]);
    if Spelled(filled[1..], values - {q}, k) {
      SpelledBefore(t[1..], values, q, k);
    } else {
      ReachesBefore(t[1..], values, q, t[0].name, k, "", {}, {});
    }
  }

  lemma {:induction false} FillValid(t: seq<Piece>, values: map<string, string>)
    requires ValidTemplate(t) && forall n | n in values :: Plain(values[n])
    ensures ValidTemplate(Fill(t, values))
  {
    if t != [] {
      assert ValidPiece(t[0]);
      FillValid(t[1..], values);
    }
  }

  lemma {:induction false} UnambiguousIsFaithful(order: seq<Entry>, t: seq<Piece>, values: map<string, string>)
    requires ValidTemplate(t) && ValidValues(values) && Enumerates(order, values) && Unambiguous(t, values)
    ensures Faithful(order, t)
  {
    if order != [] {
      var q := order[0].name;
      if Clash(t, q) {
        ClashIsSpelled(t, values, q);
      }
      ReplaceIsFill(t, q, order[0].value);
      var filled := Fill(t, map[q := order[0].value]);
      FillValid(t, map[q := order[0].value]);
      forall k | k in values - {q} ensures !Spelled(filled, values - {q}, k) {
        if Spelled(filled, values - {q}, k) {
          SpelledBefore(t, values, q, k);
        }
      }
      UnambiguousIsFaithful(order[1..], filled, values - {q});
    }
  }

  /** Replacing a key already passed leaves what is reached. */
  lemma {:induction false} ReachesAfter(
    t: seq<Piece>, values: map<string, string>, q: string, n: string, k: string, text: string, inner: set<string>)
    requires q in values && q != n && q != k && q in inner && Reaches(t, values, n, k, text, inner)
    ensures Reaches(Fill(t, map[q := values[q]]), values - {q}, n, k, text, inner - {q})
  {
    var filled := Fill(t, map[q := values[q]]);
    assert filled[1..] == Fill(t[1..], map[q := values[q]]);
    match t[0]
    case Literal(x) => ReachesAfter(t[1..], values, q, n, k, text + x, inner);
    case Key(p) =>
      if p == q {
        assert inner + {p} == inner;
        ReachesAfter(t[1..], values, q, n, k, text + values[p], inner);
      } else if !(p !in inner && text == k) {
        ReachesAfter(t[1..], values, q, n, k, text + values[p], inner + {p});
        assert inner + {p} - {q} == inner - {q} + {p};
      }
  }

  /** What is reached is reached at once, or still there after some other key has been replaced. */
  lemma {:induction false} ReachesOrPasses(
    t: seq<Piece>, values: map<string, string>, n: string, k: string, text: string)
    returns (q: string)
    requires Reaches(t, values, n, k, text, {})
    ensures (HasKey(t) && text + Gap(t) == k)
            || (q in values && q != n && q != k && Reaches(Fill(t, map[q := values[q]]), values - {q}, n, k, text, {}))
  {
    q := "";
    match t[0]
    case Literal(x) =>
      q := ReachesOrPasses(t[1..], values, n, k, text + x);
      assert text + Gap(t) == (text + x) + Gap(t[1..]);
      if q in values {
        assert Fill(t, map[q := values[q]])[1..] == Fill(t[1..], map[q := values[q]]);
      }
    case Key(p) =>
      if text != k {
        q := p;
        assert {} + {p} == {p};
        ReachesAfter(t[1..], values, p, n, k, text + values[p], {p});
        assert {p} - {p} == {};
        assert Fill(t, map[q := values[q]])[1..] == Fill(t[1..], map[q := values[q]]);
      }
  }

  lemma {:induction false} SpelledOrPasses(t: seq<Piece>, values: map<string, string>, k: string) returns (q: string)
    requires Spelled(t, values, k)
    ensures Clash(t, k)
            || (q in values && q != k && Spelled(Fill(t, map[q := values[q]]), values - {q}, k))
  {
    if Spelled(t[1..], values, k) {
      q := SpelledOrPasses(t[1..], values, k);
    } else {
      q := ReachesOrPasses(t[1..], values, t[0].name, k, "");
    }
    if q in values {
      assert Fill(t, map[q := values[q]])[1..] == Fill(t[1..], map[q := values[q]]);
    }
  }

  lemma SomeOrder(values: map<string, string>) returns (order: seq<Entry>)
    ensures Enumerates(order, values)
    decreases |values|
  {
    if values == map[] {
      order := [];
    } else {
      var k :| k in values;
      DropSmaller(values, k);
      var rest := SomeOrder(values - {k});
      order := [Entry(k, values[k])] + rest;
    }
  }

  lemma DropSmaller(values: map<string, string>, k: string)
    requires k in values
    ensures |values - {k}| < |values|
  {
    assert (values - {k}).Keys == values.Keys - {k};
    assert |(values - {k}).Keys| < |values.Keys|;
  }

  lemma {:induction false} SpelledIsUnfaithful(t: seq<Piece>, values: map<string, string>, k: string)
    returns (order: seq<Entry>)
    requires ValidTemplate(t) && ValidValues(values) && k in values && Spelled(t, values, k)
    ensures Enumerates(order, values) && !Faithful(order, t)
    decreases |values|
  {
    var q := SpelledOrPasses(t, values, k);
    if Clash(t, k) {
      var rest := SomeOrder(values - {k});
      order := [Entry(k, values[k])] + rest;
      ReplaceIsFill(t, k, values[k]);
    } else {
      DropSmaller(values, q);
      FillValid(t, map[q := values[q]]);
      var rest := SpelledIsUnfaithful(Fill(t, map[q := values[q]]), values - {q}, k);
      order := [Entry(q, values[q])] + rest;
    }
  }

  /** Every order of the map replaces the keys of the template and nothing else, exactly when no text between
      two keys can come to spell a key. */
  lemma FaithfulExactly(t: seq<Piece>, values: map<string, string>)
    requires ValidTemplate(t) && ValidValues(values)
    ensures Unambiguous(t, values) <==> forall order | Enumerates(order, values) :: Faithful(order, t)
  {
    if Unambiguous(t, values) {
      forall order | Enumerates(order, values) ensures Faithful(order, t) {
        UnambiguousIsFaithful(order, t, values);
      }
    } else {
      var k :| k in values && Spelled(t, values, k);
      var order := SpelledIsUnfaithful(t, values, k);
    }
  }

  // ---------------------------------------------------------------- the simultaneous substitution

  lemma {:induction false} FillTwice(t: seq<Piece>, values: map<string, string>, k: string)
    requires k in values
    ensures Fill(Fill(t, map[k := values[k]]), values - {k}) == Fill(t, values)
  {
    if t != [] {
      FillTwice(t[1..], values, k);
      var once := Fill(t, map[k := values[k]]);
      assert once[1..] == Fill(t[1..], map[k := values[k]]);
    }
  }

  lemma {:induction false} FillNothing(t: seq<Piece>)
    ensures Fill(t, map[]) == t
  {
    if t != [] {
      FillNothing(t[1..]);
    }
  }

  lemma {:induction false} FaithfulRun(order: seq<Entry>, t: seq<Piece>, values: map<string, string>)
    requires Enumerates(order, values) && Faithful(order, t)
    ensures Run(order, Render(t)) == Render(Fill(t, values))
  {
    if order == [] {
      FillNothing(t);
    } else {
      FillTwice(t, values, order[0].name);
      FaithfulRun(order[1..], Fill(t, map[order[0].name := order[0].value]), values - {order[0].name});
    }
  }

  /** Then the order of the map does not matter: the result is the simultaneous substitution. */
  lemma SimultaneousSubstitution(order: seq<Entry>, t: seq<Piece>, values: map<string, string>)
    requires ValidTemplate(t) && ValidValues(values) && Unambiguous(t, values) && Enumerates(order, values)
    ensures Run(order, Render(t)) == Render(Fill(t, values))
  {
    UnambiguousIsFaithful(order, t, values);
    FaithfulRun(order, t, values);
  }

  lemma ClashThrough(text: string, k: string)
    ensures Clash([Key("x"), Literal(text), Key("y")], k) <==> k != "x" && text == k
  {
    var t := [Key("x"), Literal(text), Key("y")];
    assert t[1..] == [Literal(text), Key("y")] && t[1..][1..] == [Key("y")] && [Key("y")][1..] == [];
    assert HasKey(t[1..]) && Gap(t[1..]) == text + Gap([Key("y")]) == text;
    assert !Clash([Key("y")], k);
    assert !Clash(t[1..], k);
  }

  lemma FillAcross(middle: Piece, k: string, e: string)
    requires k != "x" && k != "y"
    ensures Fill([Key("x"), middle, Key("y")], map[k := e]) == [Key("x"), FillPiece(middle, map[k := e]), Key("y")]
  {
    var t := [Key("x"), middle, Key("y")];
    assert t[1..] == [middle, Key("y")] && t[1..][1..] == [Key("y")] && [Key("y")][1..] == [];
    assert Fill([Key("y")], map[k := e]) == [Key("y")];
    assert Fill(t[1..], map[k := e]) == [FillPiece(middle, map[k := e]), Key("y")];
  }

  lemma RenderAcross(text: string)
    ensures Render([Key("x"), Literal(text), Key("y")]) == "%x%" + text + "%y%"
  {
    var t := [Key("x"), Literal(text), Key("y")];
    assert t[1..] == [Literal(text), Key("y")] && t[1..][1..] == [Key("y")] && [Key("y")][1..] == [];
    assert Render([Key("y")]) == "%y%" && Wrap("x") == "%x%";
  }

  lemma ClearPlaces(k: string)
    ensures k != "" ==> !Clash([Key("x"), Key("a"), Key("y")], k)
  {
    var t := [Key("x"), Key("a"), Key("y")];
    assert t[1..] == [Key("a"), Key("y")] && t[1..][1..] == [Key("y")] && [Key("y")][1..] == [];
    assert !Clash([Key("y")], k);
    assert k != "" ==> !Clash(t[1..], k);
  }

  lemma KeepsOther(t: seq<Piece>)
    requires t == [Key("x"), Key("a"), Key("y")]
    ensures ReplaceAll(Render(t), Wrap("b"), "c") == Render(t)
  {
    ClearPlaces("b");
    ReplaceIsFill(t, "b", "c");
    FillAcross(Key("a"), "b", "c");
  }

  lemma PutsValue(t: seq<Piece>)
    requires t == [Key("x"), Key("a"), Key("y")]
    ensures ReplaceAll(Render(t), Wrap("a"), "b") == Render([Key("x"), Literal("b"), Key("y")])
  {
    ClearPlaces("a");
    ReplaceIsFill(t, "a", "b");
    FillAcross(Key("a"), "a", "b");
  }

  lemma ValueFirst()
    ensures Run([Entry("b", "c"), Entry("a", "b")], Render([Key("x"), Key("a"), Key("y")])) == "%x%b%y%"
  {
    var t := [Key("x"), Key("a"), Key("y")];
    KeepsOther(t);
    PutsValue(t);
    RenderAcross("b");
    TwoRuns(Entry("b", "c"), Entry("a", "b"), Render(t));
  }

  lemma Corrupts(u: seq<Piece>)
    requires u == [Key("x"), Literal("b"), Key("y")]
    ensures ReplaceAll(Render(u), Wrap("b"), "c") != "%x%b%y%"
  {
    ClashThrough("b", "b");
    ReplaceIsFill(u, "b", "c");
    FillAcross(Literal("b"), "b", "c");
    RenderAcross("b");
  }

  lemma ValueLast()
    ensures Run([Entry("a", "b"), Entry("b", "c")], Render([Key("x"), Key("a"), Key("y")])) != "%x%b%y%"
  {
    var t := [Key("x"), Key("a"), Key("y")];
    PutsValue(t);
    Corrupts([Key("x"), Literal("b"), Key("y")]);
    TwoRuns(Entry("a", "b"), Entry("b", "c"), Render(t));
  }

  /** It is not enough that no literal between two keys spells a key: in %x%%a%%y% the value of a can. */
  lemma InnerValueClashes()
    ensures var t := [Key("x"), Key("a"), Key("y")];
            var a, b := Entry("a", "b"), Entry("b", "c");
            Run([b, a], Render(t)) == "%x%b%y%" && Run([a, b], Render(t)) != "%x%b%y%"
  {
    ValueFirst();
    ValueLast();
  }

  lemma TwoRuns(a: Entry, b: Entry, s: string)
    ensures Run([a, b], s) == ReplaceAll(ReplaceAll(s, Wrap(a.name), a.value), Wrap(b.name), b.value)
  {
    assert [a, b][1..] == [b] && [b][1..] == [];
    var once := ReplaceAll(s, Wrap(a.name), a.value);
    assert Run([b], once) == ReplaceAll(once, Wrap(b.name), b.value);
  }
}

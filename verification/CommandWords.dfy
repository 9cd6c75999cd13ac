/** Command lines whose arguments mix bare text and quoted values, as the tasks of the workflow have them
    (internal/workflow/assets/workflow.json, read by worker/worker/client/utils.py). */
module CommandWords {
  import opened Text
  import opened CommandLine

  datatype Part = Bare(text: string) | InQuotes(value: string)

  /** An argument is made of parts without space between; gap is the number of spaces after it beyond the first. */
  datatype Argument = Argument(parts: seq<Part>, gap: nat)

  predicate IsBare(c: char) {
    !IsSpace(c) && c !in {BACKSLASH, QUOTE, APOSTROPHE, BACKTICK}
  }

  predicate ValidPart(p: Part) {
    p.Bare? ==> p.text != "" && forall i | 0 <= i < |p.text| :: IsBare(p.text[i])
  }

  predicate ValidParts(parts: seq<Part>) {
    forall p | p in parts :: ValidPart(p)
  }

  predicate ValidLine(args: seq<Argument>) {
    forall arg | arg in args :: arg.parts != [] && ValidParts(arg.parts)
  }

  function PrintPart(p: Part): string {
    match p
    case Bare(text) => text
    case InQuotes(value) => Quote(value)
  }

  function PrintParts(parts: seq<Part>): string {
    if parts == [] then "" else PrintPart(parts[0]) + PrintParts(parts[1..])
  }

  function Spaces(n: nat): string {
    if n == 0 then "" else " " + Spaces(n - 1)
  }

  function Line(args: seq<Argument>): string {
    if args == [] then ""
    else if |args| == 1 then PrintParts(args[0].parts)
    else PrintParts(args[0].parts) + (Spaces(args[0].gap + 1) + Line(args[1..]))
  }

  function PartValue(p: Part): string {
    match p
    case Bare(text) => text
    case InQuotes(value) => value
  }

  function Value(parts: seq<Part>): string {
    if parts == [] then "" else PartValue(parts[0]) + Value(parts[1..])
  }

  function Values(args: seq<Argument>): seq<string> {
    if args == [] then [] else [Value(args[0].parts)] + Values(args[1..])
  }

  // ---------------------------------------------------------------- reading a part

  lemma {:induction false} ReadConcat(a: string, b: string)
    ensures Read(a + b) == Read(a) + Read(b)
  {
    if a == "" {
      assert a + b == b;
    } else {
      assert (a + b)[1..] == a[1..] + b;
      ReadConcat(a[1..], b);
    }
  }

  lemma {:induction false} SplitBare(text: string, tail: string, token: string, quoted: bool)
    requires forall i | 0 <= i < |text| :: IsBare(text[i])
    ensures Split(text + tail, Word, token, quoted) == Split(tail, Word, token + Read(text), quoted)
    decreases |text|
  {
    if text == "" {
      assert text + tail == tail && token + Read(text) == token;
    } else {
      var s, rest := text + tail, text[1..];
      assert s[0] == text[0] && s[1..] == rest + tail;
      SplitBare(rest, tail, token + [text[0]], quoted);
      SeqAssoc(token, [text[0]], Read(rest));
    }
  }

  lemma SplitQuotes(value: string, tail: string, token: string, quoted: bool)
    ensures Split(Quote(value) + tail, Word, token, quoted) == Split(tail, Word, token + Read(value), true)
  {
    var inside := Escaped(value) + [QUOTE] + tail;
    assert Quote(value) + tail == [QUOTE] + inside;
    assert ([QUOTE] + inside)[1..] == inside;
    if !quoted {
      FirstCharQuotes(inside, token);
    }
    SplitQuoted(value, tail, token);
  }

  predicate AnyQuoted(parts: seq<Part>) {
    parts != [] && (parts[0].InQuotes? || AnyQuoted(parts[1..]))
  }

  lemma SplitPart(p: Part, tail: string, token: string, quoted: bool)
    requires ValidPart(p)
    ensures Split(PrintPart(p) + tail, Word, token, quoted)
            == Split(tail, Word, token + Read(PartValue(p)), quoted || p.InQuotes?)
  {
    match p
    case Bare(text) => SplitBare(text, tail, token, quoted);
    case InQuotes(value) => SplitQuotes(value, tail, token, quoted);
  }

  lemma {:induction false} SplitParts(parts: seq<Part>, tail: string, token: string, quoted: bool)
    requires ValidParts(parts)
    ensures Split(PrintParts(parts) + tail, Word, token, quoted)
            == Split(tail, Word, token + Read(Value(parts)), quoted || AnyQuoted(parts))
    decreases |parts|
  {
    if parts == [] {
      assert PrintParts(parts) + tail == tail && token + Read(Value(parts)) == token;
    } else {
      var p, rest := parts[0], parts[1..];
      SeqAssoc(PrintPart(p), PrintParts(rest), tail);
      SplitPart(p, PrintParts(rest) + tail, token, quoted);
      SplitParts(rest, tail, token + Read(PartValue(p)), quoted || p.InQuotes?);
      ReadConcat(PartValue(p), Value(rest));
      SeqAssoc(token, Read(PartValue(p)), Read(Value(rest)));
    }
  }

  /** The first character of an argument begins a word. */
  lemma BeginWord(s: string)
    requires s != "" && (IsBare(s[0]) || s[0] == QUOTE)
    ensures Split(s, Between, "", false) == Split(s, Word, "", false)
  {
    assert "" + [s[0]] == [s[0]];
  }

  lemma {:induction false} ReadStays(s: string)
    ensures |Read(s)| >= |s|
  {
    if s != "" {
      ReadStays(s[1..]);
    }
  }

  lemma SplitArgument(parts: seq<Part>, tail: string)
    requires parts != [] && ValidParts(parts)
    ensures Split(PrintParts(parts) + tail, Between, "", false)
            == Split(tail, Word, Read(Value(parts)), AnyQuoted(parts))
    ensures Finished(Read(Value(parts)), AnyQuoted(parts)) == [Read(Value(parts))]
  {
    var s := PrintParts(parts) + tail;
    assert ValidPart(parts[0]);
    assert s[0] == PrintPart(parts[0])[0];
    BeginWord(s);
    SplitParts(parts, tail, "", false);
    assert "" + Read(Value(parts)) == Read(Value(parts));
    ReadStays(Value(parts));
  }

  lemma {:induction false} SkipSpaces(n: nat, tail: string)
    ensures Split(Spaces(n) + tail, Between, "", false) == Split(tail, Between, "", false)
  {
    if n == 0 {
      assert Spaces(n) + tail == tail;
    } else {
      assert (Spaces(n) + tail)[1..] == Spaces(n - 1) + tail;
      SkipSpaces(n - 1, tail);
    }
  }

  lemma {:induction false} SplitLineOf(args: seq<Argument>)
    requires ValidLine(args)
    ensures Split(Line(args), Between, "", false) == Success(ReadAll(Values(args)))
  {
    if args != [] {
      var parts, rest := args[0].parts, args[1..];
      assert args[0] in args && ValidLine(rest);
      var read := Read(Value(parts));
      assert Values(args)[1..] == Values(rest);
      assert ReadAll(Values(args)) == [read] + ReadAll(Values(rest));
      if |args| == 1 {
        SplitArgument(parts, "");
        assert PrintParts(parts) + "" == PrintParts(parts);
        assert ReadAll(Values(rest)) == [] && [read] + [] == [read];
      } else {
        var after := Spaces(args[0].gap) + Line(rest);
        assert Spaces(args[0].gap + 1) + Line(rest) == " " + after;
        SplitArgument(parts, " " + after);
        assert (" " + after)[1..] == after;
        SkipSpaces(args[0].gap, Line(rest));
        SplitLineOf(rest);
      }
    }
  }

  /** Any line of arguments reads back as their values with each backslash doubled. */
  lemma LineArrives(args: seq<Argument>)
    requires ValidLine(args)
    ensures ParseCommandLine(Line(args)) == Success(DoubledAll(Values(args)))
  {
    SplitLineOf(args);
    UnescapedReadAll(Values(args));
  }
}

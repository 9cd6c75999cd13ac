/** The mapping a command template is filled from, and what the worker reads from a filled command line
    (internal/controller/package.go, worker/worker/client/utils.py). */
module ReplacementMapping {
  import opened Text
  import opened CommandLine
  import opened CommandWords
  import opened SharedPaths
  import opened Replacements

  type Context = seq<Entry>

  /** The text put in place of a key. */
  function Printed(value: string): string {
    Rebased(Escaped(value))
  }

  function PrintedAll(values: map<string, string>): map<string, string> {
    map k | k in values :: Printed(values[k])
  }

  /** Replacing the keys as they are written in the map, signs included. */
  function RunKeys(order: seq<Entry>, s: string): string {
    if order == [] then s else RunKeys(order[1..], ReplaceAll(s, order[0].name, order[0].value))
  }

  /** Each entry of the context in turn overwrites the mapping. */
  function Updated(entries: map<string, string>, context: Context): map<string, string>
    decreases |context|
  {
    if context == [] then entries else Updated(entries[context[0].name := context[0].value], context[1..])
  }

  /** The context's last entry for a key is the one that counts, or the mapping's own if it has none. */
  predicate Overwritten(before: map<string, string>, context: Context, after: map<string, string>, k: string) {
    if exists e :: e in context && e.name == k then
      k in after && exists i :: && 0 <= i < |context| && context[i] == Entry(k, after[k])
                                && forall j | i < j < |context| :: context[j].name != k
    else (k in after <==> k in before) && (k in before ==> after[k] == before[k])
  }

  lemma {:induction false} UpdatedHolds(entries: map<string, string>, context: Context, k: string)
    ensures Overwritten(entries, context, Updated(entries, context), k)
    decreases |context|
  {
    if context != [] {
      var next, rest := entries[context[0].name := context[0].value], context[1..];
      var after := Updated(next, rest);
      UpdatedHolds(next, rest, k);
      assert context == [context[0]] + rest;
      if exists e :: e in rest && e.name == k {
        var i :| && 0 <= i < |rest| && rest[i] == Entry(k, after[k])
                 && forall j | i < j < |rest| :: rest[j].name != k;
        assert context[i + 1] == Entry(k, after[k]);
        assert forall j | i + 1 < j < |context| :: context[j] == rest[j - 1];
      } else if context[0].name == k {
        assert context[0] == Entry(k, after[k]);
        assert forall j | 0 < j < |context| :: context[j] == rest[j - 1] && rest[j - 1] in rest;
      }
    }
  }

  lemma {:induction false} EnumeratesOneMore(order: seq<Entry>, values: map<string, string>, k: string, v: string)
    requires Enumerates(order, values) && k !in values
    ensures Enumerates(order + [Entry(k, v)], values[k := v])
  {
    if order == [] {
      assert [Entry(k, v)][1..] == [] && values[k := v] - {k} == map[];
    } else {
      var more, k0 := order + [Entry(k, v)], order[0].name;
      EnumeratesOneMore(order[1..], values - {k0}, k, v);
      assert more[1..] == order[1..] + [Entry(k, v)];
      assert values[k := v] - {k0} == (values - {k0})[k := v];
    }
  }

  lemma {:induction false} RunKeysOneMore(order: seq<Entry>, e: Entry, s: string)
    ensures RunKeys(order + [e], s) == ReplaceAll(RunKeys(order, s), e.name, e.value)
  {
    if order == [] {
      assert [e][1..] == [];
    } else {
      assert (order + [e])[1..] == order[1..] + [e];
      RunKeysOneMore(order[1..], e, ReplaceAll(s, order[0].name, order[0].value));
    }
  }

  lemma OneLess(all: map<string, string>, todo: set<string>, k: string)
    requires k in todo && todo <= all.Keys
    ensures k !in all - todo && (all - todo)[k := all[k]] == all - (todo - {k})
  {
  }

  lemma MergeOneMore(a: map<string, string>, b: map<string, string>, todo: set<string>, k: string)
    requires k in todo && todo <= b.Keys
    ensures (a + (b - todo))[k := b[k]] == a + (b - (todo - {k}))
  {
    OneLess(b, todo, k);
    assert a + (b - todo)[k := b[k]] == (a + (b - todo))[k := b[k]];
  }

  class Mapping {
    var entries: map<string, string>

    constructor (entries: map<string, string>)
      ensures this.entries == entries
    {
      this.entries := entries;
    }

    /** Overwrites the mapping with the values of the chain's context, in place. */
    method Update(context: Context)
      modifies this
      ensures entries == Updated(old(entries), context)
      ensures forall k :: Overwritten(old(entries), context, entries, k)
    {
      var i := 0;
      while i < |context|
        invariant i <= |context| && Updated(old(entries), context) == Updated(entries, context[i..])
      {
        assert context[i..][1..] == context[i + 1..];
        entries := entries[context[i].name := context[i].value];
        i := i + 1;
      }
      forall k ensures Overwritten(old(entries), context, entries, k) {
        UpdatedHolds(old(entries), context, k);
      }
    }

    /** A new mapping in which the input takes precedence; neither operand changes. */
    method With(input: Mapping) returns (merged: Mapping)
      ensures fresh(merged) && merged.entries == entries + input.entries
    {
      merged := new Mapping(entries);
      var todo := input.entries.Keys;
      assert input.entries - todo == map[];
      while todo != {}
        invariant todo <= input.entries.Keys
        invariant merged.entries == entries + (input.entries - todo)
        invariant fresh(merged)
        decreases |todo|
      {
        var k :| k in todo;
        MergeOneMore(entries, input.entries, todo, k);
        merged.entries := merged.entries[k := input.entries[k]];
        todo := todo - {k};
      }
    }

    /** The input with every key replaced, in the order the map happens to be ranged over. */
    method ReplaceValues(input: string) returns (output: string, ghost order: seq<Entry>)
      ensures Enumerates(order, PrintedAll(entries))
      ensures output == if input == "" then "" else RunKeys(order, input)
    {
      output, order := input, [];
      if input == "" {
        order := SomeOrder(PrintedAll(entries));
        return;
      }
      var todo := entries.Keys;
      ghost var all := PrintedAll(entries);
      assert all - todo == map[];
      while todo != {}
        invariant todo <= entries.Keys
        invariant Enumerates(order, all - todo)
        invariant output == RunKeys(order, input)
        decreases |todo|
      {
        var k :| k in todo;
        var escaped := Escape(entries[k]);
        var printed := Rebased(escaped);
        output := ReplaceAll(output, k, printed);
        RunKeysOneMore(order, Entry(k, printed), input);
        EnumeratesOneMore(order, all - todo, k, printed);
        OneLess(all, todo, k);
        order := order + [Entry(k, printed)];
        todo := todo - {k};
      }
      assert all - todo == all;
    }
  }

  // ---------------------------------------------------------------- mappings whose keys carry their signs

  /** The mapping with its names in place of its keys. */
  ghost predicate KeyedBy(entries: map<string, string>, values: map<string, string>) {
    && (forall n | n in values :: Wrap(n) in entries && entries[Wrap(n)] == values[n])
    && (forall k | k in entries :: exists n :: n in values && k == Wrap(n))
  }

  lemma WrapInjective(a: string, b: string)
    requires Wrap(a) == Wrap(b)
    ensures a == b
  {
    assert Wrap(a)[1..|a| + 1] == a && Wrap(b)[1..|b| + 1] == b && |a| == |b|;
  }

  lemma {:induction false} RunKeysIsRun(
    order: seq<Entry>, entries: map<string, string>, values: map<string, string>, s: string)
    returns (named: seq<Entry>)
    requires Enumerates(order, entries) && KeyedBy(entries, values)
    ensures Enumerates(named, values) && Run(named, s) == RunKeys(order, s)
  {
    if order == [] {
      assert forall n | n in values :: Wrap(n) in entries;
      named := [];
    } else {
      var k, v := order[0].name, order[0].value;
      var n :| n in values && k == Wrap(n);
      KeyedByRest(entries, values, n);
      var rest := RunKeysIsRun(order[1..], entries - {k}, values - {n}, ReplaceAll(s, k, v));
      named := [Entry(n, v)] + rest;
      assert named[1..] == rest;
    }
  }

  lemma KeyedByRest(entries: map<string, string>, values: map<string, string>, n: string)
    requires KeyedBy(entries, values) && n in values
    ensures KeyedBy(entries - {Wrap(n)}, values - {n})
  {
    forall m | m in values - {n} ensures Wrap(m) in entries - {Wrap(n)} {
      if Wrap(m) == Wrap(n) {
        WrapInjective(m, n);
      }
    }
  }

  // ---------------------------------------------------------------- from the template to the worker's arguments

  predicate SafePiece(p: Piece) {
    match p
    case Literal(text) => Safe(text)
    case Key(name) => Safe(name)
  }

  /** Text and keys that stand between double quotes in a template. */
  predicate SafeArgument(arg: seq<Piece>) {
    ValidTemplate(arg) && forall p | p in arg :: SafePiece(p)
  }

  const MARK := Literal("\"")

  /** Part of an argument of a template: bare text without keys, or text and keys in double quotes. */
  datatype TemplatePart = Outside(text: string) | Inside(pieces: seq<Piece>)

  /** An argument of a template and the number of spaces after it beyond the first. */
  datatype TemplateArgument = TemplateArgument(parts: seq<TemplatePart>, gap: nat)

  predicate SafePart(p: TemplatePart) {
    match p
    case Outside(text) => Plain(text) && ValidPart(Bare(text))
    case Inside(pieces) => SafeArgument(pieces)
  }

  predicate SafeParts(parts: seq<TemplatePart>) {
    forall p | p in parts :: SafePart(p)
  }

  predicate SafeCommand(args: seq<TemplateArgument>) {
    forall arg | arg in args :: arg.parts != [] && SafeParts(arg.parts)
  }

  function Enclosed(pieces: seq<Piece>): seq<Piece> {
    [MARK] + pieces + [MARK]
  }

  function PartTemplate(p: TemplatePart): seq<Piece> {
    match p
    case Outside(text) => [Literal(text)]
    case Inside(pieces) => Enclosed(pieces)
  }

  function PartsTemplate(parts: seq<TemplatePart>): seq<Piece> {
    if parts == [] then [] else PartTemplate(parts[0]) + PartsTemplate(parts[1..])
  }

  /** A command template: arguments with spaces between them. */
  function Command(args: seq<TemplateArgument>): seq<Piece> {
    if args == [] then []
    else if |args| == 1 then PartsTemplate(args[0].parts)
    else PartsTemplate(args[0].parts) + ([Literal(Spaces(args[0].gap + 1))] + Command(args[1..]))
  }

  function RebasedAll(values: map<string, string>): map<string, string> {
    map n | n in values :: Rebased(values[n])
  }

  /** What an argument should be: each key simply replaced by its value, as the worker sees its path. */
  function Meaning(arg: seq<Piece>, values: map<string, string>): string {
    Render(Fill(arg, RebasedAll(values)))
  }

  /** The line as it should be: bare text as it stands, the rest in quotes with its meaning. */
  function FilledParts(parts: seq<TemplatePart>, values: map<string, string>): seq<Part> {
    if parts == [] then []
    else
      var first := match parts[0]
                   case Outside(text) => Bare(text)
                   case Inside(pieces) => InQuotes(Meaning(pieces, values));
      [first] + FilledParts(parts[1..], values)
  }

  function FilledLine(args: seq<TemplateArgument>, values: map<string, string>): seq<Argument> {
    if args == [] then []
    else [Argument(FilledParts(args[0].parts, values), args[0].gap)] + FilledLine(args[1..], values)
  }

  lemma FillLiteral(text: string, values: map<string, string>)
    ensures Render(Fill([Literal(text)], values)) == text
  {
    RenderFill([Literal(text)], values);
    assert [Literal(text)][1..] == [];
  }

  lemma {:induction false} ArgumentPrinted(arg: seq<Piece>, values: map<string, string>)
    requires SafeArgument(arg)
    ensures Render(Fill(arg, PrintedAll(values))) == Escaped(Meaning(arg, values))
  {
    if arg != [] {
      RenderFill(arg, PrintedAll(values));
      RenderFill(arg, RebasedAll(values));
      ArgumentPrinted(arg[1..], values);
      PiecePrinted(arg[0], values);
      EscapedConcat(RenderPiece(FillPiece(arg[0], RebasedAll(values))), Meaning(arg[1..], values));
    }
  }

  lemma {:induction false} PiecePrinted(p: Piece, values: map<string, string>)
    requires SafePiece(p)
    ensures RenderPiece(FillPiece(p, PrintedAll(values))) == Escaped(RenderPiece(FillPiece(p, RebasedAll(values))))
  {
    match p
    case Literal(text) => EscapedSafe(text);
    case Key(name) =>
      if name in values {
        RebasedEscaped(values[name]);
      } else {
        EscapedSafe(Wrap(name));
      }
  }

  lemma EnclosedPrinted(arg: seq<Piece>, values: map<string, string>)
    requires SafeArgument(arg)
    ensures Render(Fill(Enclosed(arg), PrintedAll(values))) == Quote(Meaning(arg, values))
  {
    FilledConcat([MARK] + arg, [MARK], PrintedAll(values));
    FilledConcat([MARK], arg, PrintedAll(values));
    FillLiteral("\"", PrintedAll(values));
    ArgumentPrinted(arg, values);
  }

  lemma {:induction false} PartsPrinted(parts: seq<TemplatePart>, values: map<string, string>)
    requires SafeParts(parts)
    ensures Render(Fill(PartsTemplate(parts), PrintedAll(values))) == PrintParts(FilledParts(parts, values))
    ensures ValidParts(FilledParts(parts, values)) && |FilledParts(parts, values)| == |parts|
  {
    if parts != [] {
      var p, filled := parts[0], FilledParts(parts, values);
      assert p in parts && SafeParts(parts[1..]);
      PartsPrinted(parts[1..], values);
      FilledConcat(PartTemplate(p), PartsTemplate(parts[1..]), PrintedAll(values));
      assert filled[1..] == FilledParts(parts[1..], values);
      match p
      case Outside(text) => FillLiteral(text, PrintedAll(values));
      case Inside(pieces) => EnclosedPrinted(pieces, values);
    }
  }

  lemma {:induction false} CommandPrinted(args: seq<TemplateArgument>, values: map<string, string>)
    requires SafeCommand(args)
    ensures Render(Fill(Command(args), PrintedAll(values))) == Line(FilledLine(args, values))
    ensures ValidLine(FilledLine(args, values)) && |FilledLine(args, values)| == |args|
  {
    if args != [] {
      var line, rest := FilledLine(args, values), FilledLine(args[1..], values);
      assert args[0] in args && SafeCommand(args[1..]);
      PartsPrinted(args[0].parts, values);
      CommandPrinted(args[1..], values);
      assert line[1..] == rest;
      if |args| > 1 {
        var spaces := [Literal(Spaces(args[0].gap + 1))];
        FilledConcat(PartsTemplate(args[0].parts), spaces + Command(args[1..]), PrintedAll(values));
        FilledConcat(spaces, Command(args[1..]), PrintedAll(values));
        FillLiteral(Spaces(args[0].gap + 1), PrintedAll(values));
      }
    }
  }

  lemma {:induction false} SpacesPlain(n: nat)
    ensures Plain(Spaces(n))
  {
    if n > 0 {
      SpacesPlain(n - 1);
    }
  }

  lemma {:induction false} PartsValid(parts: seq<TemplatePart>)
    requires SafeParts(parts)
    ensures ValidTemplate(PartsTemplate(parts))
  {
    if parts != [] {
      assert SafePart(parts[0]);
      PartsValid(parts[1..]);
    }
  }

  lemma {:induction false} CommandValid(args: seq<TemplateArgument>)
    requires SafeCommand(args)
    ensures ValidTemplate(Command(args))
  {
    if args != [] {
      assert args[0] in args;
      PartsValid(args[0].parts);
      SpacesPlain(args[0].gap + 1);
      CommandValid(args[1..]);
    }
  }

  lemma PrintedPlain(v: string)
    requires Plain(v)
    ensures Plain(Printed(v))
  {
    EscapedPlain(v);
    RebasedPlain(Escaped(v));
  }

  lemma {:induction false} EscapedPlain(v: string)
    requires Plain(v)
    ensures Plain(Escaped(v))
  {
    if v != "" {
      assert v[0] in v;
      EscapedPlain(v[1..]);
    }
  }

  /** Whatever the order of the mapping, the worker receives the arguments of the template, each key replaced
      by its value and each backslash doubled. */
  lemma CommandArrives(
    entries: map<string, string>, values: map<string, string>, args: seq<TemplateArgument>, order: seq<Entry>)
    requires KeyedBy(entries, values) && ValidValues(values) && SafeCommand(args)
    requires Unambiguous(Command(args), PrintedAll(values))
    requires Enumerates(order, PrintedAll(entries))
    ensures ParseCommandLine(RunKeys(order, Render(Command(args))))
            == Success(DoubledAll(Values(FilledLine(args, values))))
  {
    var named := RunKeysIsRun(order, PrintedAll(entries), PrintedAll(values), Render(Command(args)));
    CommandValid(args);
    forall n | n in values ensures Plain(Printed(values[n])) {
      PrintedPlain(values[n]);
    }
    SimultaneousSubstitution(named, Command(args), PrintedAll(values));
    CommandPrinted(args, values);
    LineArrives(FilledLine(args, values));
  }
}

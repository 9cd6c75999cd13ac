/** Quoting of command-line arguments by the controller (internal/controller/package.go) and their
    splitting by the worker (worker/worker/client/utils.py, over Python's shlex in POSIX mode). */
module CommandLine {
  import opened Text

  const BACKSLASH: char := '\\'
  const QUOTE: char := '"'
  const APOSTROPHE: char := '\''
  const BACKTICK: char := '`'

  // ---------------------------------------------------------------- the printer

  function Doubled(v: string): string {
    if v == "" then ""
    else if v[0] == BACKSLASH then [BACKSLASH, BACKSLASH] + Doubled(v[1..])
    else [v[0]] + Doubled(v[1..])
  }

  /** What the loop of escape writes for one character. */
  function Guarded(c: char): string {
    if c == BACKSLASH || c == QUOTE || c == BACKTICK then [BACKSLASH, c] else [c]
  }

  function GuardedAll(v: string): string {
    if v == "" then "" else Guarded(v[0]) + GuardedAll(v[1..])
  }

  /** The escaped value in one pass: the two passes of the source turn one backslash into four. */
  function Escaped(v: string): string {
    if v == "" then "" else EscapedChar(v[0]) + Escaped(v[1..])
  }

  function EscapedChar(c: char): string {
    if c == BACKSLASH then [BACKSLASH, BACKSLASH, BACKSLASH, BACKSLASH] else Guarded(c)
  }

  lemma {:induction false} TwoPassesAreOne(v: string)
    ensures GuardedAll(Doubled(v)) == Escaped(v)
  {
    if v != "" {
      TwoPassesAreOne(v[1..]);
      GuardedConcat(if v[0] == BACKSLASH then [BACKSLASH, BACKSLASH] else [v[0]], Doubled(v[1..]));
      if v[0] == BACKSLASH {
        var two := [BACKSLASH, BACKSLASH];
        assert two[1..] == [BACKSLASH] && [BACKSLASH][1..] == "";
        assert GuardedAll([BACKSLASH]) == [BACKSLASH, BACKSLASH];
      } else {
        assert [v[0]][1..] == "";
        assert GuardedAll([v[0]]) == Guarded(v[0]);
      }
    }
  }

  lemma {:induction false} GuardedConcat(a: string, b: string)
    ensures GuardedAll(a + b) == GuardedAll(a) + GuardedAll(b)
  {
    if a == "" {
      assert a + b == b;
    } else {
      assert (a + b)[1..] == a[1..] + b;
      GuardedConcat(a[1..], b);
    }
  }

  lemma {:induction false} EscapedConcat(a: string, b: string)
    ensures Escaped(a + b) == Escaped(a) + Escaped(b)
  {
    if a == "" {
      assert a + b == b;
    } else {
      assert (a + b)[1..] == a[1..] + b;
      EscapedConcat(a[1..], b);
    }
  }

  lemma GuardedStep(v: string, i: nat, written: string, c: string)
    requires i < |v| && c == Guarded(v[i]) && GuardedAll(v) == written + GuardedAll(v[i..])
    ensures GuardedAll(v) == written + c + GuardedAll(v[i + 1..])
  {
    assert v[i..][1..] == v[i + 1..];
    assert written + (c + GuardedAll(v[i + 1..])) == written + c + GuardedAll(v[i + 1..]);
  }

  /** The escape method of a replacement value. */
  method Escape(r: string) returns (escaped: string)
    ensures escaped == Escaped(r)
  {
    var v := Doubled(r);
    escaped := "";
    var i := 0;
    while i < |v|
      invariant i <= |v| && GuardedAll(v) == escaped + GuardedAll(v[i..])
    {
      var written: string;
      if v[i] == BACKSLASH {
        written := [BACKSLASH, BACKSLASH];
      } else if v[i] == QUOTE || v[i] == BACKTICK {
        written := [BACKSLASH] + [v[i]];
      } else {
        written := [v[i]];
      }
      GuardedStep(v, i, escaped, written);
      escaped := escaped + written;
      i := i + 1;
    }
    TwoPassesAreOne(r);
  }

  // ---------------------------------------------------------------- the reader

  predicate IsSpace(c: char) {
    c == ' ' || c == '\t' || c == '\r' || c == '\n'
  }

  /** The states of the splitter: before a word, in a word, in either kind of quotes, and after a backslash
      met in a word or in double quotes. */
  datatype Mode = Between | Word | Single | Double | EscapedWord | EscapedDouble

  const NO_CLOSING_QUOTATION := "No closing quotation"
  const NO_ESCAPED_CHARACTER := "No escaped character"

  /** The arguments in s, given the state, the word read so far and whether part of it was quoted. */
  function Split(s: string, mode: Mode, token: string, quoted: bool): Result<seq<string>>
    decreases |s|
  {
    if s == "" then
      match mode
      case Between => Success([])
      case Word => Success(Finished(token, quoted))
      case Single => Failure(NO_CLOSING_QUOTATION)
      case Double => Failure(NO_CLOSING_QUOTATION)
      case EscapedWord => Failure(NO_ESCAPED_CHARACTER)
      case EscapedDouble => Failure(NO_ESCAPED_CHARACTER)
    else
      var c, rest := s[0], s[1..];
      match mode
      case Between =>
        if IsSpace(c) then Split(rest, Between, "", false)
        else if c == BACKSLASH then Split(rest, EscapedWord, "", false)
        else if c == QUOTE then Split(rest, Double, "", false)
        else if c == APOSTROPHE then Split(rest, Single, "", false)
        else Split(rest, Word, [c], false)
      case Word =>
        if IsSpace(c) then Then(Finished(token, quoted), Split(rest, Between, "", false))
        else if c == BACKSLASH then Split(rest, EscapedWord, token, quoted)
        else if c == QUOTE then Split(rest, Double, token, quoted)
        else if c == APOSTROPHE then Split(rest, Single, token, quoted)
        else Split(rest, Word, token + [c], quoted)
      case Single =>
        if c == APOSTROPHE then Split(rest, Word, token, true)
        else Split(rest, Single, token + [c], true)
      case Double =>
        if c == QUOTE then Split(rest, Word, token, true)
        else if c == BACKSLASH then Split(rest, EscapedDouble, token, true)
        else Split(rest, Double, token + [c], true)
      case EscapedWord => Split(rest, Word, token + [c], quoted)
      case EscapedDouble =>
        if c == BACKSLASH || c == QUOTE then Split(rest, Double, token + [c], quoted)
        else Split(rest, Double, token + [BACKSLASH, c], quoted)
  }

  /** An empty word counts only if it was quoted. */
  function Finished(token: string, quoted: bool): seq<string> {
    if token == "" && !quoted then [] else [token]
  }

  function Then(words: seq<string>, rest: Result<seq<string>>): Result<seq<string>> {
    if rest.Success? then Success(words + rest.value) else rest
  }

  /** Drops each backslash directly before a backtick. */
  function Unescaped(s: string): string {
    if s == "" then ""
    else if s[0] == BACKSLASH && |s| > 1 && s[1] == BACKTICK then Unescaped(s[1..])
    else [s[0]] + Unescaped(s[1..])
  }

  function UnescapedAll(words: seq<string>): seq<string> {
    if words == [] then [] else [Unescaped(words[0])] + UnescapedAll(words[1..])
  }

  /** parse_command_line. */
  function ParseCommandLine(s: string): Result<seq<string>> {
    var words := Split(s, Between, "", false);
    if words.Success? then Success(UnescapedAll(words.value)) else words
  }

  // ---------------------------------------------------------------- reading back what was printed

  function Quote(v: string): string {
    [QUOTE] + Escaped(v) + [QUOTE]
  }

  function QuoteAll(args: seq<string>): seq<string> {
    if args == [] then [] else [Quote(args[0])] + QuoteAll(args[1..])
  }

  function DoubledAll(args: seq<string>): seq<string> {
    if args == [] then [] else [Doubled(args[0])] + DoubledAll(args[1..])
  }

  /** What the splitter itself makes of a quoted value. */
  function Read(v: string): string {
    if v == "" then "" else ReadChar(v[0]) + Read(v[1..])
  }

  function ReadChar(c: char): string {
    if c == BACKSLASH then [BACKSLASH, BACKSLASH] else if c == BACKTICK then [BACKSLASH, BACKTICK] else [c]
  }

  function ReadAll(args: seq<string>): seq<string> {
    if args == [] then [] else [Read(args[0])] + ReadAll(args[1..])
  }

  lemma {:induction false} SplitQuoted(v: string, rest: string, token: string)
    ensures Split(Escaped(v) + [QUOTE] + rest, Double, token, true) == Split(rest, Word, token + Read(v), true)
    decreases |v|
  {
    if v == "" {
      var s := Escaped(v) + [QUOTE] + rest;
      assert s[1..] == rest;
      assert token + Read(v) == token;
    } else {
      var tail := Escaped(v[1..]) + [QUOTE] + rest;
      assert Escaped(v) + [QUOTE] + rest == EscapedChar(v[0]) + tail;
      SplitChar(v[0], tail, token);
      SplitQuoted(v[1..], rest, token + ReadChar(v[0]));
      assert token + ReadChar(v[0]) + Read(v[1..]) == token + Read(v);
    }
  }

  lemma SplitChar(c: char, tail: string, token: string)
    ensures Split(EscapedChar(c) + tail, Double, token, true) == Split(tail, Double, token + ReadChar(c), true)
  {
    var s := EscapedChar(c) + tail;
    if c == BACKSLASH {
      var pair := [BACKSLASH, BACKSLASH] + tail;
      assert s == [BACKSLASH, BACKSLASH] + pair;
      SplitPair(BACKSLASH, pair, token);
      SplitPair(BACKSLASH, tail, token + [BACKSLASH]);
      assert token + [BACKSLASH] + [BACKSLASH] == token + ReadChar(c);
    } else if c == QUOTE || c == BACKTICK {
      SplitPair(c, tail, token);
    } else {
      assert s[0] == c && s[1..] == tail;
    }
  }

  lemma SplitPair(c: char, tail: string, token: string)
    ensures var kept := if c == BACKSLASH || c == QUOTE then [c] else [BACKSLASH, c];
            Split([BACKSLASH, c] + tail, Double, token, true) == Split(tail, Double, token + kept, true)
  {
    var s := [BACKSLASH, c] + tail;
    assert s[1..] == [c] + tail && ([c] + tail)[1..] == tail;
    assert Split(s, Double, token, true) == Split([c] + tail, EscapedDouble, token, true);
  }

  lemma {:induction false} UnescapedRead(v: string)
    ensures Unescaped(Read(v)) == Doubled(v)
    ensures Read(v) != "" ==> Read(v)[0] != BACKTICK
  {
    if v != "" {
      UnescapedRead(v[1..]);
      var rest := Read(v[1..]);
      if v[0] == BACKSLASH {
        assert ([BACKSLASH, BACKSLASH] + rest)[1..] == [BACKSLASH] + rest && ([BACKSLASH] + rest)[1..] == rest;
      } else if v[0] == BACKTICK {
        assert ([BACKSLASH, BACKTICK] + rest)[1..] == [BACKTICK] + rest && ([BACKTICK] + rest)[1..] == rest;
      } else {
        assert ([v[0]] + rest)[1..] == rest;
      }
    }
  }

  lemma {:induction false} UnescapedReadAll(args: seq<string>)
    ensures UnescapedAll(ReadAll(args)) == DoubledAll(args)
  {
    if args != [] {
      UnescapedRead(args[0]);
      UnescapedReadAll(args[1..]);
      assert ReadAll(args)[1..] == ReadAll(args[1..]);
    }
  }

  lemma SplitWord(v: string, tail: string)
    ensures Split(Quote(v) + tail, Between, "", false) == Split(tail, Word, Read(v), true)
  {
    var inside := Escaped(v) + [QUOTE] + tail;
    assert Quote(v) + tail == [QUOTE] + inside;
    assert ([QUOTE] + inside)[1..] == inside;
    FirstCharQuotes(inside, "");
    SplitQuoted(v, tail, "");
    assert "" + Read(v) == Read(v);
  }

  lemma {:induction false} SplitLine(args: seq<string>)
    ensures Split(Join(" ", QuoteAll(args)), Between, "", false) == Success(ReadAll(args))
  {
    if |args| == 1 {
      SplitWord(args[0], "");
      assert QuoteAll(args) == [Quote(args[0])];
      assert Quote(args[0]) + "" == Quote(args[0]) == Join(" ", QuoteAll(args));
      assert ReadAll(args) == [Read(args[0])];
      assert Split("", Word, Read(args[0]), true) == Success([Read(args[0])]);
    } else if |args| > 1 {
      var line := Join(" ", QuoteAll(args[1..]));
      QuoteAllSize(args[1..]);
      assert Join(" ", QuoteAll(args)) == Quote(args[0]) + (" " + line);
      SplitWord(args[0], " " + line);
      assert (" " + line)[1..] == line;
      SplitLine(args[1..]);
    }
  }

  /** Reading the first character inside quotes marks the word as quoted. */
  lemma FirstCharQuotes(s: string, token: string)
    requires s != ""
    ensures Split(s, Double, token, false) == Split(s, Double, token, true)
  {
  }

  lemma {:induction false} QuoteAllSize(args: seq<string>)
    ensures |QuoteAll(args)| == |args|
  {
    if args != [] {
      QuoteAllSize(args[1..]);
    }
  }

  /** Any list of quoted arguments reads back as the same list with each backslash doubled. */
  lemma RoundTrip(args: seq<string>)
    ensures ParseCommandLine(Join(" ", QuoteAll(args))) == Success(DoubledAll(args))
  {
    SplitLine(args);
    UnescapedReadAll(args);
  }

  /** So it reads back unchanged exactly when no argument holds a backslash, and different lists stay
      different in any case. */
  lemma RoundTripExactly(args: seq<string>)
    ensures ParseCommandLine(Join(" ", QuoteAll(args))) == Success(args)
            <==> forall arg | arg in args :: BACKSLASH !in arg
  {
    RoundTrip(args);
    DoubledAllFixed(args);
  }

  lemma {:induction false} DoubledAllFixed(args: seq<string>)
    ensures DoubledAll(args) == args <==> forall arg | arg in args :: BACKSLASH !in arg
  {
    if args != [] {
      DoubledFixed(args[0]);
      DoubledAllFixed(args[1..]);
      assert args == [args[0]] + args[1..];
      assert DoubledAll(args) == args <==> Doubled(args[0]) == args[0] && DoubledAll(args[1..]) == args[1..];
    }
  }

  lemma {:induction false} DoubledFixed(v: string)
    ensures |Doubled(v)| >= |v|
    ensures BACKSLASH in v ==> |Doubled(v)| > |v|
    ensures BACKSLASH !in v ==> Doubled(v) == v
  {
    if v != "" {
      DoubledFixed(v[1..]);
      assert v == [v[0]] + v[1..];
    }
  }

  lemma RoundTripInjective(a: seq<string>, b: seq<string>)
    requires ParseCommandLine(Join(" ", QuoteAll(a))) == ParseCommandLine(Join(" ", QuoteAll(b)))
    ensures a == b
  {
    RoundTrip(a);
    RoundTrip(b);
    DoubledAllInjective(a, b);
  }

  lemma {:induction false} DoubledAllInjective(a: seq<string>, b: seq<string>)
    requires DoubledAll(a) == DoubledAll(b)
    ensures a == b
  {
    if a != [] && b != [] {
      assert DoubledAll(a)[0] == DoubledAll(b)[0] && DoubledAll(a)[1..] == DoubledAll(b)[1..];
      DoubledInjective(a[0], b[0]);
      DoubledAllInjective(a[1..], b[1..]);
    }
  }

  lemma {:induction false} DoubledInjective(a: string, b: string)
    requires Doubled(a) == Doubled(b)
    ensures a == b
  {
    if a != "" && b != "" {
      assert a[0] == Doubled(a)[0] == Doubled(b)[0] == b[0];
      var n := if a[0] == BACKSLASH then 2 else 1;
      assert Doubled(a)[n..] == Doubled(a[1..]) && Doubled(b)[n..] == Doubled(b[1..]);
      DoubledInjective(a[1..], b[1..]);
    }
  }
}

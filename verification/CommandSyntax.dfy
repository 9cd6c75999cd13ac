/** Which arguments the splitter finds in a command line and which lines it refuses (worker/worker/client/utils.py,
    over Python's shlex in POSIX mode), and what each character becomes when a value is escaped
    (internal/controller/package.go). */
module CommandSyntax {
  import opened Text
  import opened CommandLine

  /** Between double quotes: a character, or a backslash and a character. */
  datatype Inner = One(c: char) | Pair(c: char)

  datatype Part = Bare(text: string) | Slashed(c: char) | InApostrophes(text: string) | InQuotes(inner: seq<Inner>)

  /** A word and the space after it. */
  datatype Word = Word(parts: seq<Part>, gap: string)

  /** What may follow the last word: nothing, or a quotation or backslash that is not completed. */
  datatype Ending = Nothing | Backslash | Apostrophe(text: string) | Quotes(inner: seq<Inner>)
                  | QuotesBackslash(inner: seq<Inner>)

  predicate White(gap: string) {
    forall i | 0 <= i < |gap| :: gap[i] in {' ', '\t', '\r', '\n'}
  }

  predicate ValidInner(inner: seq<Inner>) {
    forall i | 0 <= i < |inner| :: inner[i].One? ==> inner[i].c != '\\' && inner[i].c != '"'
  }

  predicate ValidPart(p: Part) {
    match p
    case Bare(text) =>
      text != "" && forall i | 0 <= i < |text| :: text[i] !in {' ', '\t', '\r', '\n', '\\', '"', '\''}
    case Slashed(c) => true
    case InApostrophes(text) => '\'' !in text
    case InQuotes(inner) => ValidInner(inner)
  }

  predicate ValidParts(parts: seq<Part>) {
    forall p | p in parts :: ValidPart(p)
  }

  predicate ValidWords(words: seq<Word>) {
    forall w | w in words :: w.parts != [] && ValidParts(w.parts) && w.gap != "" && White(w.gap)
  }

  predicate ValidEnding(end: Ending) {
    match end
    case Apostrophe(text) => '\'' !in text
    case Quotes(inner) => ValidInner(inner)
    case QuotesBackslash(inner) => ValidInner(inner)
    case _ => true
  }

  // ---------------------------------------------------------------- the text of a line and its arguments

  function InnerText(inner: seq<Inner>): string {
    if inner == [] then ""
    else (if inner[0].One? then [inner[0].c] else ['\\', inner[0].c]) + InnerText(inner[1..])
  }

  /** A backslash between double quotes stands for nothing only before another one or a double quote. */
  function InnerValue(inner: seq<Inner>): string {
    if inner == [] then ""
    else if inner[0].One? || inner[0].c == '\\' || inner[0].c == '"' then [inner[0].c] + InnerValue(inner[1..])
    else ['\\', inner[0].c] + InnerValue(inner[1..])
  }

  function PartText(p: Part): string {
    match p
    case Bare(text) => text
    case Slashed(c) => ['\\', c]
    case InApostrophes(text) => "'" + text + "'"
    case InQuotes(inner) => "\"" + InnerText(inner) + "\""
  }

  function PartValue(p: Part): string {
    match p
    case Bare(text) => text
    case Slashed(c) => [c]
    case InApostrophes(text) => text
    case InQuotes(inner) => InnerValue(inner)
  }

  function PartsText(parts: seq<Part>): string {
    if parts == [] then "" else PartText(parts[0]) + PartsText(parts[1..])
  }

  function PartsValue(parts: seq<Part>): string {
    if parts == [] then "" else PartValue(parts[0]) + PartsValue(parts[1..])
  }

  function WordsText(words: seq<Word>): string {
    if words == [] then "" else PartsText(words[0].parts) + (words[0].gap + WordsText(words[1..]))
  }

  function WordsValues(words: seq<Word>): seq<string> {
    if words == [] then [] else [PartsValue(words[0].parts)] + WordsValues(words[1..])
  }

  function EndingText(end: Ending): string {
    match end
    case Nothing => ""
    case Backslash => "\\"
    case Apostrophe(text) => "'" + text
    case Quotes(inner) => "\"" + InnerText(inner)
    case QuotesBackslash(inner) => "\"" + (InnerText(inner) + "\\")
  }

  // ---------------------------------------------------------------- reading a part

  predicate Quoted(p: Part) {
    p.InApostrophes? || p.InQuotes?
  }

  lemma {:induction false} SplitBare(text: string, tail: string, token: string, quoted: bool)
    requires forall i | 0 <= i < |text| :: text[i] !in {' ', '\t', '\r', '\n', '\\', '"', '\''}
    ensures CommandLine.Split(text + tail, Mode.Word, token, quoted)
            == CommandLine.Split(tail, Mode.Word, token + text, quoted)
    decreases |text|
  {
    if text == "" {
      assert text + tail == tail && token + text == token;
    } else {
      assert (text + tail)[1..] == text[1..] + tail;
      SplitBare(text[1..], tail, token + [text[0]], quoted);
      assert token + [text[0]] + text[1..] == token + text;
    }
  }

  lemma {:induction false} SplitApostrophes(text: string, tail: string, token: string)
    requires '\'' !in text
    ensures CommandLine.Split(text + tail, Single, token, true)
            == CommandLine.Split(tail, Single, token + text, true)
    decreases |text|
  {
    if text == "" {
      assert text + tail == tail && token + text == token;
    } else {
      assert text[0] in text && (text + tail)[1..] == text[1..] + tail;
      SplitApostrophes(text[1..], tail, token + [text[0]]);
      assert token + [text[0]] + text[1..] == token + text;
    }
  }

  lemma SplitOne(c: char, tail: string, token: string)
    requires c != '\\' && c != '"'
    ensures CommandLine.Split([c] + tail, Double, token, true) == CommandLine.Split(tail, Double, token + [c], true)
  {
    assert ([c] + tail)[1..] == tail;
  }

  lemma {:induction false} SplitInner(inner: seq<Inner>, tail: string, token: string)
    requires ValidInner(inner)
    ensures CommandLine.Split(InnerText(inner) + tail, Double, token, true)
            == CommandLine.Split(tail, Double, token + InnerValue(inner), true)
    decreases |inner|
  {
    if inner == [] {
      assert InnerText(inner) + tail == tail && token + InnerValue(inner) == token;
    } else {
      var c, rest := inner[0].c, InnerText(inner[1..]) + tail;
      if inner[0].One? {
        assert InnerText(inner) + tail == [c] + rest;
        SplitOne(c, rest, token);
        SplitInner(inner[1..], tail, token + [c]);
        SeqAssoc(token, [c], InnerValue(inner[1..]));
      } else {
        var kept := if c == '\\' || c == '"' then [c] else ['\\', c];
        assert InnerText(inner) + tail == ['\\', c] + rest;
        SplitPair(c, rest, token);
        SplitInner(inner[1..], tail, token + kept);
        SeqAssoc(token, kept, InnerValue(inner[1..]));
      }
    }
  }

  /** Once inside quotes, whether the word was quoted before makes no difference to what follows. */
  lemma {:induction false} OpenQuotes(s: string, token: string, quoted: bool)
    requires s != ""
    ensures CommandLine.Split(s, Double, token, quoted) == CommandLine.Split(s, Double, token, true)
    ensures CommandLine.Split(s, Single, token, quoted) == CommandLine.Split(s, Single, token, true)
  {
  }

  lemma SplitSlashed(c: char, tail: string, token: string, quoted: bool)
    ensures CommandLine.Split(['\\', c] + tail, Mode.Word, token, quoted)
            == CommandLine.Split(tail, Mode.Word, token + [c], quoted)
  {
    assert (['\\', c] + tail)[1..] == [c] + tail && ([c] + tail)[1..] == tail;
    assert CommandLine.Split([c] + tail, EscapedWord, token, quoted)
        == CommandLine.Split(tail, Mode.Word, token + [c], quoted);
  }

  lemma SplitInApostrophes(text: string, tail: string, token: string, quoted: bool)
    requires '\'' !in text
    ensures CommandLine.Split("'" + text + "'" + tail, Mode.Word, token, quoted)
            == CommandLine.Split(tail, Mode.Word, token + text, true)
  {
    var inside := text + ("'" + tail);
    assert "'" + text + "'" + tail == "'" + inside;
    assert ("'" + inside)[1..] == inside && ("'" + tail)[1..] == tail;
    OpenQuotes(inside, token, quoted);
    SplitApostrophes(text, "'" + tail, token);
  }

  lemma SplitInQuotes(inner: seq<Inner>, tail: string, token: string, quoted: bool)
    requires ValidInner(inner)
    ensures CommandLine.Split("\"" + InnerText(inner) + "\"" + tail, Mode.Word, token, quoted)
            == CommandLine.Split(tail, Mode.Word, token + InnerValue(inner), true)
  {
    var inside := InnerText(inner) + ("\"" + tail);
    assert "\"" + InnerText(inner) + "\"" + tail == "\"" + inside;
    assert ("\"" + inside)[1..] == inside && ("\"" + tail)[1..] == tail;
    OpenQuotes(inside, token, quoted);
    SplitInner(inner, "\"" + tail, token);
  }

  lemma SplitPart(p: Part, tail: string, token: string, quoted: bool)
    requires ValidPart(p)
    ensures CommandLine.Split(PartText(p) + tail, Mode.Word, token, quoted)
            == CommandLine.Split(tail, Mode.Word, token + PartValue(p), quoted || Quoted(p))
  {
    match p
    case Bare(text) => SplitBare(text, tail, token, quoted);
    case Slashed(c) => SplitSlashed(c, tail, token, quoted);
    case InApostrophes(text) => SplitInApostrophes(text, tail, token, quoted);
    case InQuotes(inner) => SplitInQuotes(inner, tail, token, quoted);
  }

  predicate AnyQuoted(parts: seq<Part>) {
    parts != [] && (Quoted(parts[0]) || AnyQuoted(parts[1..]))
  }

  lemma {:induction false} SplitParts(parts: seq<Part>, tail: string, token: string, quoted: bool)
    requires ValidParts(parts)
    ensures CommandLine.Split(PartsText(parts) + tail, Mode.Word, token, quoted)
            == CommandLine.Split(tail, Mode.Word, token + PartsValue(parts), quoted || AnyQuoted(parts))
    decreases |parts|
  {
    if parts == [] {
      assert PartsText(parts) + tail == tail && token + PartsValue(parts) == token;
    } else {
      var p, rest := parts[0], parts[1..];
      SeqAssoc(PartText(p), PartsText(rest), tail);
      SplitPart(p, PartsText(rest) + tail, token, quoted);
      SplitParts(rest, tail, token + PartValue(p), quoted || Quoted(p));
      SeqAssoc(token, PartValue(p), PartsValue(rest));
    }
  }

  /** A word is empty only if part of it is quoted. */
  lemma {:induction false} Counts(parts: seq<Part>)
    requires parts != [] && ValidParts(parts)
    ensures PartsValue(parts) != "" || AnyQuoted(parts)
  {
    assert ValidPart(parts[0]);
  }

  /** The first character of a word begins it. */
  lemma BeginWord(s: string)
    requires s != "" && s[0] !in {' ', '\t', '\r', '\n'}
    ensures CommandLine.Split(s, Between, "", false) == CommandLine.Split(s, Mode.Word, "", false)
  {
    assert "" + [s[0]] == [s[0]];
  }

  lemma FirstOfPart(p: Part)
    requires ValidPart(p)
    ensures PartText(p) != "" && PartText(p)[0] !in {' ', '\t', '\r', '\n'}
  {
  }

  lemma SplitWordParts(parts: seq<Part>, tail: string)
    requires parts != [] && ValidParts(parts)
    ensures CommandLine.Split(PartsText(parts) + tail, Between, "", false)
            == CommandLine.Split(tail, Mode.Word, PartsValue(parts), AnyQuoted(parts))
  {
    var s := PartsText(parts) + tail;
    assert ValidPart(parts[0]);
    FirstOfPart(parts[0]);
    assert s[0] == PartText(parts[0])[0];
    BeginWord(s);
    SplitParts(parts, tail, "", false);
    assert "" + PartsValue(parts) == PartsValue(parts);
  }

  lemma {:induction false} SkipWhite(gap: string, tail: string)
    requires White(gap)
    ensures CommandLine.Split(gap + tail, Between, "", false) == CommandLine.Split(tail, Between, "", false)
    decreases |gap|
  {
    if gap == "" {
      assert gap + tail == tail;
    } else {
      assert (gap + tail)[1..] == gap[1..] + tail;
      SkipWhite(gap[1..], tail);
    }
  }

  /** A word ends at the first space after it. */
  lemma EndWord(parts: seq<Part>, gap: string, tail: string)
    requires parts != [] && ValidParts(parts) && gap != "" && White(gap)
    ensures CommandLine.Split(gap + tail, Mode.Word, PartsValue(parts), AnyQuoted(parts))
            == Then([PartsValue(parts)], CommandLine.Split(tail, Between, "", false))
  {
    Counts(parts);
    assert (gap + tail)[1..] == gap[1..] + tail;
    SkipWhite(gap[1..], tail);
  }

  lemma ThenThen(a: seq<string>, b: seq<string>, rest: Result<seq<string>>)
    ensures Then(a, Then(b, rest)) == Then(a + b, rest) && Then([], rest) == rest
  {
    if rest.Success? {
      SeqAssoc(a, b, rest.value);
      assert [] + rest.value == rest.value;
    }
  }

  lemma SplitOneWord(w: Word, tail: string)
    requires w.parts != [] && ValidParts(w.parts) && w.gap != "" && White(w.gap)
    ensures CommandLine.Split(PartsText(w.parts) + (w.gap + tail), Between, "", false)
            == Then([PartsValue(w.parts)], CommandLine.Split(tail, Between, "", false))
  {
    SplitWordParts(w.parts, w.gap + tail);
    EndWord(w.parts, w.gap, tail);
  }

  lemma AssocTwice(a: string, b: string, c: string, d: string)
    ensures (a + (b + c)) + d == a + (b + (c + d))
  {
  }

  lemma {:induction false} SplitWords(words: seq<Word>, tail: string)
    requires ValidWords(words)
    ensures CommandLine.Split(WordsText(words) + tail, Between, "", false)
            == Then(WordsValues(words), CommandLine.Split(tail, Between, "", false))
  {
    var end := CommandLine.Split(tail, Between, "", false);
    ThenThen([], [], end);
    if words == [] {
      assert WordsText(words) + tail == tail;
    } else {
      var w, rest := words[0], WordsText(words[1..]) + tail;
      assert w in words && ValidWords(words[1..]);
      AssocTwice(PartsText(w.parts), w.gap, WordsText(words[1..]), tail);
      SplitOneWord(w, rest);
      SplitWords(words[1..], tail);
      ThenThen([PartsValue(w.parts)], WordsValues(words[1..]), end);
    }
  }

  // ---------------------------------------------------------------- the end of a line

  lemma {:induction false} SplitOpenApostrophes(text: string, token: string, quoted: bool)
    requires '\'' !in text
    ensures CommandLine.Split(text, Single, token, quoted) == Failure("No closing quotation")
    decreases |text|
  {
    if text != "" {
      assert text[0] in text;
      SplitOpenApostrophes(text[1..], token + [text[0]], true);
    }
  }

  /** A line that ends inside double quotes, or after a backslash. */
  lemma SplitOpenQuotes(inner: seq<Inner>, end: string, token: string, quoted: bool)
    requires ValidInner(inner) && (end == "" || end == "\\")
    ensures CommandLine.Split(InnerText(inner) + end, Double, token, quoted)
            == Failure(if end == "" then "No closing quotation" else "No escaped character")
  {
    var s := InnerText(inner) + end;
    if s != "" {
      OpenQuotes(s, token, quoted);
      SplitInner(inner, end, token);
      if end != "" {
        assert end[1..] == "";
      }
    }
  }

  function Refusal(end: Ending): string {
    match end
    case Backslash => "No escaped character"
    case QuotesBackslash(_) => "No escaped character"
    case _ => "No closing quotation"
  }

  lemma SplitEnding(end: Ending, token: string, quoted: bool)
    requires ValidEnding(end) && end != Nothing
    ensures CommandLine.Split(EndingText(end), Mode.Word, token, quoted) == Failure(Refusal(end))
  {
    var s := EndingText(end);
    match end
    case Backslash => assert s[1..] == "";
    case Apostrophe(text) =>
      assert s[1..] == text;
      SplitOpenApostrophes(text, token, quoted);
    case Quotes(inner) =>
      assert s[1..] == InnerText(inner) + "";
      SplitOpenQuotes(inner, "", token, quoted);
    case QuotesBackslash(inner) =>
      assert s[1..] == InnerText(inner) + "\\";
      SplitOpenQuotes(inner, "\\", token, quoted);
  }

  lemma SplitLast(last: seq<Part>, end: Ending)
    requires ValidParts(last) && ValidEnding(end)
    ensures CommandLine.Split(PartsText(last) + EndingText(end), Between, "", false)
            == if end != Nothing then Failure(Refusal(end))
               else if last == [] then Success([]) else Success([PartsValue(last)])
  {
    if last == [] {
      assert PartsText(last) + EndingText(end) == EndingText(end);
      if end != Nothing {
        BeginWord(EndingText(end));
        SplitEnding(end, "", false);
      }
    } else {
      SplitWordParts(last, EndingText(end));
      if end != Nothing {
        SplitEnding(end, PartsValue(last), AnyQuoted(last));
      } else {
        Counts(last);
      }
    }
  }

  // ---------------------------------------------------------------- backticks

  /** A backslash directly before a backtick is dropped, whatever stands around the two. */
  lemma {:induction false} UnescapedDrops(a: string, b: string)
    ensures Unescaped(a + "\\`" + b) == Unescaped(a) + "`" + Unescaped(b)
    decreases |a|
  {
    var s := a + "\\`" + b;
    if a == "" {
      assert s == "\\`" + b && s[1..] == "`" + b && s[1..][1..] == b;
    } else {
      assert s[1..] == a[1..] + "\\`" + b;
      UnescapedDrops(a[1..], b);
      if |a| == 1 {
        assert s[1] == '\\' && a[1..] == "";
      } else {
        assert s[1] == a[1];
      }
    }
  }

  /** Nothing else is. */
  lemma {:induction false} UnescapedKeeps(s: string)
    requires forall i | 0 <= i < |s| - 1 :: !(s[i] == '\\' && s[i + 1] == '`')
    ensures Unescaped(s) == s
  {
    if s != "" {
      forall i | 0 <= i < |s[1..]| - 1 ensures !(s[1..][i] == '\\' && s[1..][i + 1] == '`') {
        assert s[1..][i] == s[i + 1] && s[1..][i + 1] == s[i + 2];
      }
      UnescapedKeeps(s[1..]);
      assert |s| > 1 ==> !(s[0] == '\\' && s[0 + 1] == '`');
    }
  }

  lemma LineSplits(gap: string, words: seq<Word>, last: seq<Part>, end: Ending)
    requires White(gap) && ValidWords(words) && ValidParts(last) && ValidEnding(end)
    ensures var line := gap + (WordsText(words) + (PartsText(last) + EndingText(end)));
            CommandLine.Split(line, Between, "", false)
            == if end != Nothing then Failure(Refusal(end))
               else Success(WordsValues(words) + if last == [] then [] else [PartsValue(last)])
  {
    SkipWhite(gap, WordsText(words) + (PartsText(last) + EndingText(end)));
    SplitWords(words, PartsText(last) + EndingText(end));
    SplitLast(last, end);
  }

  lemma {:induction false} ParsedWords(words: seq<string>)
    ensures |UnescapedAll(words)| == |words|
    ensures forall i | 0 <= i < |words| :: UnescapedAll(words)[i] == Unescaped(words[i])
  {
    if words != [] {
      ParsedWords(words[1..]);
    }
  }

  /** A line is read as its words, without the backslashes before backticks, and refused exactly if a quotation is
      not closed or nothing follows a backslash. */
  lemma LineParses(gap: string, words: seq<Word>, last: seq<Part>, end: Ending)
    requires White(gap) && ValidWords(words) && ValidParts(last) && ValidEnding(end)
    ensures var line := gap + (WordsText(words) + (PartsText(last) + EndingText(end)));
            var values := WordsValues(words) + if last == [] then [] else [PartsValue(last)];
            if end != Nothing then ParseCommandLine(line) == Failure(Refusal(end))
            else
              var read := ParseCommandLine(line);
              && read.Success? && |read.value| == |values|
              && forall i | 0 <= i < |values| :: read.value[i] == Unescaped(values[i])
  {
    LineSplits(gap, words, last, end);
    ParsedWords(WordsValues(words) + if last == [] then [] else [PartsValue(last)]);
  }

  // ---------------------------------------------------------------- escaping character by character

  /** Escaping is done character by character: a backslash becomes four, a double quote or a backtick gets one in
      front, and every other character stays. */
  lemma EscapedHolds(a: string, c: char, b: string)
    ensures Escaped(a + [c] + b)
            == Escaped(a)
               + (if c == '\\' then "\\\\\\\\" else if c == '"' then "\\\"" else if c == '`' then "\\`" else [c])
               + Escaped(b)
    ensures Escaped("") == ""
  {
    EscapedConcat(a + [c], b);
    EscapedConcat(a, [c]);
    assert [c][1..] == "";
  }

  /** What arrives for a value: each backslash twice, every other character once. */
  lemma {:induction false} DoubledHolds(a: string, c: char, b: string)
    ensures Doubled(a + [c] + b) == Doubled(a) + (if c == '\\' then "\\\\" else [c]) + Doubled(b)
    ensures Doubled("") == ""
    decreases |a|
  {
    var s := a + [c] + b;
    if a == "" {
      assert s[1..] == b;
    } else {
      assert s[1..] == a[1..] + [c] + b;
      DoubledHolds(a[1..], c, b);
    }
  }
}

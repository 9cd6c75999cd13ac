/** Paths below a temporary shared directory are rewritten to the directory the worker expects
    (internal/controller/package.go, internal/controller/path.go). */
module SharedPaths {
  import opened Text
  import opened CommandLine

  const SLASH: char := '/'
  const SHARED := ["var", "archivematica", "sharedDirectory"]
  const TEMPORARY_PREFIX := "ccp-sharedDir"

  /** Go's strings.Split at slashes. */
  function SplitPath(s: string): (parts: seq<string>)
    ensures parts != []
  {
    if s == "" then [""]
    else if s[0] == SLASH then [""] + SplitPath(s[1..])
    else
      var parts := SplitPath(s[1..]);
      [[s[0]] + parts[0]] + parts[1..]
  }

  /** The components left after cleaning a relative path. */
  function Relative(parts: seq<string>, stack: seq<string>): seq<string>
    decreases |parts|
  {
    if parts == [] then stack
    else if parts[0] == "" || parts[0] == "." then Relative(parts[1..], stack)
    else if parts[0] == ".." && stack != [] && stack[|stack| - 1] != ".."
      then Relative(parts[1..], stack[..|stack| - 1])
    else Relative(parts[1..], stack + [parts[0]])
  }

  /** The same below the root, where ".." stops. */
  function Rooted(parts: seq<string>, stack: seq<string>): seq<string>
    decreases |parts|
  {
    if parts == [] then stack
    else if parts[0] != ".." then Rooted(parts[1..], stack + [parts[0]])
    else Rooted(parts[1..], if stack == [] then [] else stack[..|stack| - 1])
  }

  predicate AllEmpty(parts: seq<string>) {
    parts == [] || (parts[0] == "" && AllEmpty(parts[1..]))
  }

  /** A directory joined with the components; a path that cleans to nothing leaves its mark. */
  function Below(base: seq<string>, parts: seq<string>): string {
    var rest := Relative(parts, []);
    [SLASH] + Join([SLASH], Rooted(rest, base)) + Mark(parts, rest)
  }

  function Mark(parts: seq<string>, rest: seq<string>): string {
    if AllEmpty(parts) then [SLASH] else if rest == [] then [SLASH, '.'] else ""
  }

  predicate IsTemporary(s: string) {
    s != "" && s[0] == SLASH && TemporaryParts(SplitPath(s))
  }

  predicate TemporaryParts(parts: seq<string>) {
    |parts| > 3 && parts[1] == "tmp" && IsPrefix(TEMPORARY_PREFIX, parts[2])
  }

  function Rebased(s: string): string {
    if IsTemporary(s) then Below(SHARED, SplitPath(s)[3..]) + if s[|s| - 1] == SLASH then [SLASH] else ""
    else s
  }

  // ---------------------------------------------------------------- rewriting commutes with escaping

  /** Text that escaping leaves alone. */
  predicate Safe(s: string) {
    BACKSLASH !in s && QUOTE !in s && BACKTICK !in s
  }

  lemma {:induction false} EscapedSafe(s: string)
    requires Safe(s)
    ensures Escaped(s) == s
  {
    if s != "" {
      assert s[0] in s;
      EscapedSafe(s[1..]);
    }
  }

  lemma {:induction false} EscapedPrefix(x: string, s: string)
    requires Safe(x)
    ensures IsPrefix(x, Escaped(s)) <==> IsPrefix(x, s)
  {
    if x != "" && s != "" {
      assert x[0] in x;
      assert Escaped(s)[0] == EscapedChar(s[0])[0];
      if x[0] == s[0] {
        EscapedPrefix(x[1..], s[1..]);
        assert Escaped(s) == [s[0]] + Escaped(s[1..]);
        PrefixTail(x, Escaped(s));
        PrefixTail(x, s);
      } else {
        PrefixHead(x, Escaped(s));
        PrefixHead(x, s);
      }
    }
  }

  lemma PrefixTail(x: string, s: string)
    requires x != "" && s != "" && x[0] == s[0]
    ensures IsPrefix(x, s) <==> IsPrefix(x[1..], s[1..])
  {
    if |x| <= |s| {
      assert s[..|x|][1..] == s[1..][..|x| - 1];
      assert s[..|x|] == [s[0]] + s[1..][..|x| - 1] && x == [x[0]] + x[1..];
    }
  }

  lemma PrefixHead(x: string, s: string)
    requires x != "" && s != ""
    ensures IsPrefix(x, s) ==> x[0] == s[0]
  {
  }

  lemma {:induction false} EscapedEquals(x: string, s: string)
    requires Safe(x)
    ensures Escaped(s) == x <==> s == x
  {
    if x != "" && s != "" {
      assert x[0] in x;
      assert x == [x[0]] + x[1..] && s == [s[0]] + s[1..];
      EscapedEquals(x[1..], s[1..]);
      if x[0] == s[0] {
        assert Escaped(s) == [s[0]] + Escaped(s[1..]);
        assert Escaped(s)[1..] == Escaped(s[1..]);
      }
    }
  }

  function EscapedAll(parts: seq<string>): (all: seq<string>)
    ensures |all| == |parts|
  {
    if parts == [] then [] else [Escaped(parts[0])] + EscapedAll(parts[1..])
  }

  lemma {:induction false} EscapedAllAt(parts: seq<string>, k: nat)
    requires k < |parts|
    ensures EscapedAll(parts)[k] == Escaped(parts[k]) && EscapedAll(parts)[k..] == EscapedAll(parts[k..])
  {
    if k > 0 {
      EscapedAllAt(parts[1..], k - 1);
      assert parts[1..][k - 1..] == parts[k..];
      assert EscapedAll(parts)[k..] == EscapedAll(parts)[1..][k - 1..];
    }
  }

  lemma {:induction false} EscapedAllConcat(a: seq<string>, b: seq<string>)
    ensures EscapedAll(a + b) == EscapedAll(a) + EscapedAll(b)
  {
    if a == [] {
      assert a + b == b;
    } else {
      assert (a + b)[1..] == a[1..] + b;
      EscapedAllConcat(a[1..], b);
    }
  }

  lemma {:induction false} EscapedAllButLast(a: seq<string>)
    requires a != []
    ensures EscapedAll(a)[..|a| - 1] == EscapedAll(a[..|a| - 1])
    ensures EscapedAll(a)[|a| - 1] == Escaped(a[|a| - 1])
  {
    var front, last := a[..|a| - 1], [a[|a| - 1]];
    assert a == front + last;
    EscapedAllConcat(front, last);
    assert last[1..] == [];
  }

  /** Splitting after a piece of text without slashes. */
  lemma {:induction false} SplitAfter(x: string, s: string)
    requires SLASH !in x
    ensures SplitPath(x + s) == [x + SplitPath(s)[0]] + SplitPath(s)[1..]
  {
    if x == "" {
      assert x + s == s && x + SplitPath(s)[0] == SplitPath(s)[0];
    } else {
      assert x[0] in x;
      assert (x + s)[0] == x[0] && (x + s)[1..] == x[1..] + s;
      SplitAfter(x[1..], s);
      assert [x[0]] + (x[1..] + SplitPath(s)[0]) == x + SplitPath(s)[0];
    }
  }

  lemma {:induction false} SplitEscaped(s: string)
    ensures SplitPath(Escaped(s)) == EscapedAll(SplitPath(s))
  {
    if s == "" {
      assert [""][1..] == [];
      assert EscapedAll([""]) == [""];
    } else {
      SplitEscaped(s[1..]);
      var rest := Escaped(s[1..]);
      var parts := SplitPath(s[1..]);
      if s[0] == SLASH {
        assert Escaped(s) == [SLASH] + rest && ([SLASH] + rest)[1..] == rest;
        assert ([""] + parts)[1..] == parts;
      } else {
        SplitAfter(EscapedChar(s[0]), rest);
        assert Escaped([s[0]] + parts[0]) == EscapedChar(s[0]) + Escaped(parts[0]) by {
          assert ([s[0]] + parts[0])[1..] == parts[0];
        }
        assert ([[s[0]] + parts[0]] + parts[1..])[1..] == parts[1..];
      }
    }
  }

  lemma {:induction false} JoinEscaped(parts: seq<string>)
    ensures Join([SLASH], EscapedAll(parts)) == Escaped(Join([SLASH], parts))
  {
    if |parts| > 1 {
      JoinEscaped(parts[1..]);
      assert EscapedAll(parts)[1..] == EscapedAll(parts[1..]);
      EscapedConcat(parts[0] + [SLASH], Join([SLASH], parts[1..]));
      EscapedConcat(parts[0], [SLASH]);
      EscapedSafe([SLASH]);
    } else if |parts| == 1 {
      assert EscapedAll(parts)[0] == Escaped(parts[0]);
    }
  }

  lemma EscapedDots(c: string)
    ensures (Escaped(c) == "" <==> c == "") && (Escaped(c) == "." <==> c == ".") && (Escaped(c) == ".." <==> c == "..")
  {
    EscapedEquals("", c);
    EscapedEquals(".", c);
    EscapedEquals("..", c);
  }

  lemma {:induction false} RelativeEscaped(parts: seq<string>, stack: seq<string>)
    ensures Relative(EscapedAll(parts), EscapedAll(stack)) == EscapedAll(Relative(parts, stack))
    decreases |parts|
  {
    if parts != [] {
      var rest := parts[1..];
      EscapedDots(parts[0]);
      assert EscapedAll(parts)[1..] == EscapedAll(rest);
      if stack != [] {
        EscapedAllButLast(stack);
        EscapedDots(stack[|stack| - 1]);
        RelativeEscaped(rest, stack[..|stack| - 1]);
      }
      RelativeEscaped(rest, stack);
      RelativeEscaped(rest, stack + [parts[0]]);
      EscapedAllConcat(stack, [parts[0]]);
      assert EscapedAll([parts[0]]) == [Escaped(parts[0])];
    }
  }

  lemma {:induction false} RootedEscaped(parts: seq<string>, stack: seq<string>)
    ensures Rooted(EscapedAll(parts), EscapedAll(stack)) == EscapedAll(Rooted(parts, stack))
    decreases |parts|
  {
    if parts != [] {
      var rest := parts[1..];
      EscapedDots(parts[0]);
      assert EscapedAll(parts)[1..] == EscapedAll(rest);
      if parts[0] != ".." {
        RootedEscaped(rest, stack + [parts[0]]);
        EscapedAllConcat(stack, [parts[0]]);
        assert EscapedAll([parts[0]]) == [Escaped(parts[0])];
      } else if stack == [] {
        RootedEscaped(rest, []);
      } else {
        EscapedAllButLast(stack);
        RootedEscaped(rest, stack[..|stack| - 1]);
      }
    }
  }

  lemma {:induction false} AllEmptyEscaped(parts: seq<string>)
    ensures AllEmpty(EscapedAll(parts)) <==> AllEmpty(parts)
  {
    if parts != [] {
      EscapedDots(parts[0]);
      assert EscapedAll(parts)[1..] == EscapedAll(parts[1..]);
      AllEmptyEscaped(parts[1..]);
    }
  }

  lemma {:induction false} EscapedAllSafe(parts: seq<string>)
    requires forall p | p in parts :: Safe(p)
    ensures EscapedAll(parts) == parts
  {
    if parts != [] {
      EscapedSafe(parts[0]);
      EscapedAllSafe(parts[1..]);
    }
  }

  lemma SharedSafe()
    ensures forall p | p in SHARED :: Safe(p)
  {
  }

  lemma BelowEscaped(base: seq<string>, parts: seq<string>)
    requires forall p | p in base :: Safe(p)
    ensures Below(base, EscapedAll(parts)) == Escaped(Below(base, parts))
  {
    var rest := Relative(parts, []);
    RelativeEscaped(parts, []);
    RootedEscaped(rest, base);
    EscapedAllSafe(base);
    AllEmptyEscaped(parts);
    JoinEscaped(Rooted(rest, base));
    EscapedAround(Join([SLASH], Rooted(rest, base)), Mark(parts, rest));
  }

  lemma EscapedAround(path: string, mark: string)
    requires Safe(mark)
    ensures Escaped([SLASH] + path + mark) == [SLASH] + Escaped(path) + mark
  {
    EscapedSafe([SLASH]);
    EscapedSafe(mark);
    EscapedConcat([SLASH], path);
    EscapedConcat([SLASH] + path, mark);
  }

  lemma {:induction false} LastEscaped(s: string)
    requires s != ""
    ensures Escaped(s) != "" && (Escaped(s)[|Escaped(s)| - 1] == SLASH <==> s[|s| - 1] == SLASH)
  {
    if |s| > 1 {
      LastEscaped(s[1..]);
    } else {
      assert Escaped(s) == EscapedChar(s[0]) + Escaped(s[1..]) && s[1..] == "";
    }
  }

  lemma TemporaryPartsEscaped(parts: seq<string>)
    ensures TemporaryParts(EscapedAll(parts)) <==> TemporaryParts(parts)
  {
    if |parts| > 3 {
      EscapedAllAt(parts, 1);
      EscapedAllAt(parts, 2);
      EscapedEquals("tmp", parts[1]);
      EscapedPrefix(TEMPORARY_PREFIX, parts[2]);
    }
  }

  lemma TemporaryEscaped(s: string)
    ensures IsTemporary(Escaped(s)) <==> IsTemporary(s)
  {
    if s != "" {
      assert Escaped(s)[0] == EscapedChar(s[0])[0];
      SplitEscaped(s);
      TemporaryPartsEscaped(SplitPath(s));
    }
  }

  /** It makes no difference that the path is rewritten only after it has been escaped. */
  lemma RebasedEscaped(s: string)
    ensures Rebased(Escaped(s)) == Escaped(Rebased(s))
  {
    TemporaryEscaped(s);
    if IsTemporary(s) {
      SplitEscaped(s);
      LastEscaped(s);
      EscapedAllAt(SplitPath(s), 3);
      var parts := SplitPath(s)[3..];
      SharedSafe();
      BelowEscaped(SHARED, parts);
      EscapedSafe([SLASH]);
      EscapedConcat(Below(SHARED, parts), if s[|s| - 1] == SLASH then [SLASH] else "");
    }
  }

  // ---------------------------------------------------------------- rewriting adds no sign of a key

  predicate Without(c: char, parts: seq<string>) {
    forall p | p in parts :: c !in p
  }

  lemma {:induction false} SplitWithout(s: string, c: char)
    requires c !in s
    ensures Without(c, SplitPath(s))
  {
    if s != "" {
      assert s[0] in s;
      SplitWithout(s[1..], c);
      var parts := SplitPath(s[1..]);
      assert parts[0] in parts;
      forall p | p in SplitPath(s) ensures c !in p {
        assert p in parts || p == "" || p == [s[0]] + parts[0];
      }
    }
  }

  lemma {:induction false} RelativeWithout(parts: seq<string>, stack: seq<string>, c: char)
    requires Without(c, parts) && Without(c, stack)
    ensures Without(c, Relative(parts, stack))
    decreases |parts|
  {
    if parts != [] {
      assert parts[0] in parts;
      RelativeWithout(parts[1..], stack, c);
      RelativeWithout(parts[1..], stack + [parts[0]], c);
      if stack != [] {
        RelativeWithout(parts[1..], stack[..|stack| - 1], c);
      }
    }
  }

  lemma {:induction false} RootedWithout(parts: seq<string>, stack: seq<string>, c: char)
    requires Without(c, parts) && Without(c, stack)
    ensures Without(c, Rooted(parts, stack))
    decreases |parts|
  {
    if parts != [] {
      assert parts[0] in parts;
      RootedWithout(parts[1..], stack + [parts[0]], c);
      RootedWithout(parts[1..], if stack == [] then [] else stack[..|stack| - 1], c);
    }
  }

  lemma {:induction false} JoinWithout(parts: seq<string>, c: char)
    requires Without(c, parts) && c != SLASH
    ensures c !in Join([SLASH], parts)
  {
    if parts != [] {
      assert parts[0] in parts;
      JoinWithout(parts[1..], c);
    }
  }

  lemma BelowWithout(base: seq<string>, parts: seq<string>, c: char)
    requires Without(c, base) && Without(c, parts) && c != SLASH && c != '.'
    ensures c !in Below(base, parts)
  {
    var rest := Relative(parts, []);
    RelativeWithout(parts, [], c);
    RootedWithout(rest, base, c);
    JoinWithout(Rooted(rest, base), c);
  }

  lemma RebasedPlain(s: string)
    requires '%' !in s
    ensures '%' !in Rebased(s)
  {
    if IsTemporary(s) {
      SplitWithout(s, '%');
      BelowWithout(SHARED, SplitPath(s)[3..], '%');
    }
  }
}

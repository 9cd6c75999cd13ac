/** Where a path below a temporary shared directory leads once it has been rewritten
    (internal/controller/package.go, internal/controller/path.go). */
module SharedLocations {
  import opened Text
  import opened SharedPaths

  /** A component that leads one step down. */
  predicate Proper(c: string) {
    c != "" && c != "." && c != ".." && '/' !in c
  }

  predicate AllProper(parts: seq<string>) {
    forall c | c in parts :: Proper(c)
  }

  predicate AllPlain(parts: seq<string>) {
    forall c | c in parts :: '/' !in c
  }

  /** The name of a temporary shared directory. */
  predicate IsTemporaryName(d: string) {
    |d| >= 13 && d[..13] == "ccp-sharedDir" && '/' !in d
  }

  // ---------------------------------------------------------------- splitting a path at its slashes

  lemma SplitSlash(x: string, rest: string)
    requires '/' !in x
    ensures SplitPath(x + "/" + rest) == [x] + SplitPath(rest)
  {
    SplitAfter(x, "/" + rest);
    assert x + "/" + rest == x + ("/" + rest);
    assert ("/" + rest)[1..] == rest;
    assert SplitPath("/" + rest) == [""] + SplitPath(rest);
    assert x + "" == x;
  }

  lemma SplitPlain(x: string)
    requires '/' !in x
    ensures SplitPath(x) == [x]
  {
    SplitAfter(x, "");
    assert x + "" == x;
  }

  lemma {:induction false} SplitJoin(parts: seq<string>)
    requires parts != [] && AllPlain(parts)
    ensures SplitPath(Join("/", parts)) == parts
  {
    if |parts| == 1 {
      SplitPlain(parts[0]);
    } else {
      assert AllPlain(parts[1..]);
      SplitSlash(parts[0], Join("/", parts[1..]));
      SplitJoin(parts[1..]);
    }
  }

  /** The path of some components below a temporary shared directory. */
  function Path(d: string, parts: seq<string>): string {
    "/tmp/" + d + "/" + Join("/", parts)
  }

  lemma TemporaryText(d: string, rest: string)
    ensures "" + "/" + ("tmp" + "/" + (d + "/" + rest)) == "/tmp/" + d + "/" + rest
  {
  }

  lemma PathSplit(d: string, rest: string)
    requires '/' !in d
    ensures SplitPath("/tmp/" + d + "/" + rest) == ["", "tmp", d] + SplitPath(rest)
  {
    TemporaryText(d, rest);
    SplitSlash(d, rest);
    SplitSlash("tmp", d + "/" + rest);
    SplitSlash("", "tmp" + "/" + (d + "/" + rest));
  }

  lemma PathParts(d: string, parts: seq<string>)
    requires '/' !in d && parts != [] && AllPlain(parts)
    ensures SplitPath(Path(d, parts)) == ["", "tmp", d] + parts
  {
    PathSplit(d, Join("/", parts));
    SplitJoin(parts);
  }

  lemma TemporaryName(d: string)
    requires IsTemporaryName(d)
    ensures IsPrefix("ccp-sharedDir", d)
  {
  }

  lemma PathIsTemporary(d: string, parts: seq<string>)
    requires IsTemporaryName(d) && parts != [] && AllPlain(parts)
    ensures IsTemporary(Path(d, parts)) && SplitPath(Path(d, parts))[3..] == parts
  {
    PathParts(d, parts);
    TemporaryName(d);
  }

  lemma {:induction false} SplitHead(s: string)
    ensures '/' !in SplitPath(s)[0]
  {
    if s != "" && s[0] != '/' {
      SplitHead(s[1..]);
    }
  }

  lemma {:induction false} SplitFirst(s: string) returns (rest: string)
    requires |SplitPath(s)| > 1
    ensures s == SplitPath(s)[0] + "/" + rest && SplitPath(rest) == SplitPath(s)[1..]
  {
    if s[0] == '/' {
      rest := s[1..];
    } else {
      rest := SplitFirst(s[1..]);
      assert s == [s[0]] + s[1..];
    }
  }

  lemma PrefixIs(d: string)
    ensures IsPrefix("ccp-sharedDir", d) <==> |d| >= 13 && d[..13] == "ccp-sharedDir"
  {
  }

  /** A path that is rewritten lies below such a directory. */
  lemma TemporaryIs(s: string) returns (d: string, rest: string)
    requires IsTemporary(s)
    ensures IsTemporaryName(d) && s == "/tmp/" + d + "/" + rest
  {
    var parts := SplitPath(s);
    assert |parts| > 3 && parts[0] == "" && parts[1] == "tmp";
    var a := SplitFirst(s);
    var b := SplitFirst(a);
    rest := SplitFirst(b);
    d := parts[2];
    SplitHead(b);
    PrefixIs(d);
    TemporaryText(d, rest);
  }

  /** Any other path stays. */
  lemma OtherwiseUnchanged(s: string)
    requires forall d, rest :: IsTemporaryName(d) ==> s != "/tmp/" + d + "/" + rest
    ensures Rebased(s) == s
  {
    if IsTemporary(s) {
      var d, rest := TemporaryIs(s);
    }
  }

  // ---------------------------------------------------------------- cleaning

  lemma {:induction false} RelativeConcat(a: seq<string>, b: seq<string>, stack: seq<string>)
    ensures Relative(a + b, stack) == Relative(b, Relative(a, stack))
    decreases |a|
  {
    if a == [] {
      assert a + b == b;
    } else {
      assert (a + b)[1..] == a[1..] + b && (a + b)[0] == a[0];
      RelativeConcat(a[1..], b, stack);
      RelativeConcat(a[1..], b, stack + [a[0]]);
      if stack != [] {
        RelativeConcat(a[1..], b, stack[..|stack| - 1]);
      }
    }
  }

  lemma {:induction false} RelativeProper(parts: seq<string>, stack: seq<string>)
    requires AllProper(parts)
    ensures Relative(parts, stack) == stack + parts
    decreases |parts|
  {
    if parts == [] {
      assert stack + parts == stack;
    } else {
      assert parts[0] in parts && AllProper(parts[1..]);
      RelativeProper(parts[1..], stack + [parts[0]]);
      SeqAssoc(stack, [parts[0]], parts[1..]);
      assert [parts[0]] + parts[1..] == parts;
    }
  }

  lemma {:induction false} RootedProper(parts: seq<string>, stack: seq<string>)
    requires AllProper(parts)
    ensures Rooted(parts, stack) == stack + parts
    decreases |parts|
  {
    if parts == [] {
      assert stack + parts == stack;
    } else {
      assert parts[0] in parts && AllProper(parts[1..]);
      RootedProper(parts[1..], stack + [parts[0]]);
      SeqAssoc(stack, [parts[0]], parts[1..]);
      assert [parts[0]] + parts[1..] == parts;
    }
  }

  function Ups(n: nat): seq<string> {
    if n == 0 then [] else [".."] + Ups(n - 1)
  }

  lemma {:induction false} UpsAre(n: nat)
    ensures |Ups(n)| == n && forall i | 0 <= i < n :: Ups(n)[i] == ".."
  {
    if n > 0 {
      UpsAre(n - 1);
    }
  }

  lemma {:induction false} RelativeUps(n: nat, rest: seq<string>, stack: seq<string>)
    requires AllProper(rest) && (stack == [] || stack[|stack| - 1] == "..")
    ensures Relative(Ups(n) + rest, stack) == stack + (Ups(n) + rest)
    decreases n
  {
    if n == 0 {
      assert Ups(n) + rest == rest;
      RelativeProper(rest, stack);
    } else {
      var more := Ups(n) + rest;
      assert more[0] == ".." && more[1..] == Ups(n - 1) + rest;
      RelativeUps(n - 1, rest, stack + [".."]);
      SeqAssoc(stack, [".."], Ups(n - 1) + rest);
      assert [".."] + (Ups(n - 1) + rest) == more;
    }
  }

  lemma {:induction false} RootedUps(n: nat, rest: seq<string>, stack: seq<string>)
    requires AllProper(rest)
    ensures Rooted(Ups(n) + rest, stack) == (if n <= |stack| then stack[..|stack| - n] else []) + rest
    decreases n
  {
    if n == 0 {
      assert Ups(n) + rest == rest && stack[..|stack|] == stack;
      RootedProper(rest, stack);
    } else {
      var more := Ups(n) + rest;
      assert more[0] == ".." && more[1..] == Ups(n - 1) + rest;
      RootedUps(n - 1, rest, if stack == [] then [] else stack[..|stack| - 1]);
    }
  }

  // ---------------------------------------------------------------- where a path leads

  /** Where n steps up from the shared directory lead. */
  function Above(n: nat): string {
    if n < 3 then "/" + Join("/", ["var", "archivematica", "sharedDirectory"][..3 - n]) + "/" else "/"
  }

  lemma {:induction false} JoinConcat(a: seq<string>, b: seq<string>)
    requires b != []
    ensures Join("/", a + b) == if a == [] then Join("/", b) else Join("/", a) + "/" + Join("/", b)
  {
    if a == [] {
      assert a + b == b;
    } else if |a| == 1 {
      assert (a + b)[1..] == b;
    } else {
      assert (a + b)[1..] == a[1..] + b && (a + b)[0] == a[0];
      JoinConcat(a[1..], b);
    }
  }

  lemma JoinAbove(n: nat, rest: seq<string>)
    requires rest != []
    ensures "/" + Join("/", (if n <= 3 then SHARED[..3 - n] else []) + rest) == Above(n) + Join("/", rest)
  {
    var base := if n <= 3 then SHARED[..3 - n] else [];
    JoinConcat(base, rest);
    if n < 3 {
      Surrounded("/", Join("/", base), "/", Join("/", rest));
    }
  }

  lemma Surrounded(a: string, b: string, c: string, d: string)
    ensures a + (b + c + d) == (a + b + c) + d
  {
  }

  lemma {:induction false} JoinLast(parts: seq<string>)
    requires parts != [] && AllProper(parts)
    ensures Join("/", parts) != "" && Join("/", parts)[|Join("/", parts)| - 1] != '/'
  {
    assert Proper(parts[0]);
    if |parts| > 1 {
      JoinLast(parts[1..]);
    } else {
      assert parts[0][|parts[0]| - 1] in parts[0];
    }
  }

  lemma {:induction false} NotAllEmpty(parts: seq<string>, k: nat)
    requires k < |parts| && parts[k] != ""
    ensures !AllEmpty(parts)
  {
    if k > 0 {
      NotAllEmpty(parts[1..], k - 1);
    }
  }

  lemma BelowLeads(n: nat, parts: seq<string>)
    requires parts != [] && AllProper(parts)
    ensures Below(SHARED, Ups(n) + parts) == Above(n) + Join("/", parts)
  {
    var all := Ups(n) + parts;
    UpsAre(n);
    RelativeUps(n, parts, []);
    assert [] + all == all;
    RootedUps(n, parts, SHARED);
    JoinAbove(n, parts);
    assert all[n] == parts[0] && Proper(parts[0]);
    NotAllEmpty(all, n);
    var path := "/" + Join("/", Rooted(all, SHARED));
    assert path + "" == path;
  }

  lemma LastOfPath(d: string, n: nat, parts: seq<string>)
    requires parts != [] && AllProper(parts)
    ensures var s := Path(d, Ups(n) + parts); s[|s| - 1] != '/'
  {
    JoinConcat(Ups(n), parts);
    JoinLast(parts);
  }

  /** A path below a temporary shared directory leads to the same place below, or so many steps above, the
      directory the worker expects. */
  lemma RebasedLeads(d: string, n: nat, parts: seq<string>)
    requires IsTemporaryName(d) && parts != [] && AllProper(parts)
    ensures Rebased(Path(d, Ups(n) + parts)) == Above(n) + Join("/", parts)
  {
    UpsAre(n);
    PathIsTemporary(d, Ups(n) + parts);
    BelowLeads(n, parts);
    LastOfPath(d, n, parts);
    assert Above(n) + Join("/", parts) + "" == Above(n) + Join("/", parts);
  }

  // ---------------------------------------------------------------- components that lead nowhere

  /** An empty component, a dot, or a step down and up again. */
  predicate Idle(parts: seq<string>) {
    parts == [""] || parts == ["."] || (|parts| == 2 && Proper(parts[0]) && parts[1] == "..")
  }

  lemma IdleStays(parts: seq<string>, stack: seq<string>)
    requires Idle(parts)
    ensures Relative(parts, stack) == stack
  {
    if |parts| == 2 {
      var down := stack + [parts[0]];
      assert parts[1..] == [".."] && parts[1..][1..] == [];
      assert Relative([".."], down) == Relative([], down[..|down| - 1]) && down[..|down| - 1] == stack;
    } else {
      assert parts[1..] == [];
    }
  }

  lemma RelativeIdle(a: seq<string>, idle: seq<string>, b: seq<string>)
    requires Idle(idle)
    ensures Relative(a + idle + b, []) == Relative(a + b, [])
  {
    RelativeConcat(a + idle, b, []);
    RelativeConcat(a, idle, []);
    IdleStays(idle, Relative(a, []));
    RelativeConcat(a, b, []);
  }

  /** A path that ends with a proper component cleans to one that does. */
  lemma RelativeEnds(parts: seq<string>, last: string)
    requires Proper(last)
    ensures Relative(parts + [last], []) != [] && !AllEmpty(parts + [last])
  {
    RelativeConcat(parts, [last], []);
    assert [last][1..] == [];
    NotAllEmpty(parts + [last], |parts|);
  }

  lemma LastOfPlain(d: string, parts: seq<string>, last: string)
    requires Proper(last)
    ensures var s := Path(d, parts + [last]); s[|s| - 1] != '/'
  {
    JoinConcat(parts, [last]);
    assert last[|last| - 1] in last;
  }

  /** It makes no difference to where a path leads. */
  lemma RebasedIdle(d: string, a: seq<string>, idle: seq<string>, b: seq<string>, last: string)
    requires IsTemporaryName(d) && AllPlain(a) && AllPlain(b) && Idle(idle) && Proper(last)
    ensures Rebased(Path(d, a + idle + (b + [last]))) == Rebased(Path(d, a + (b + [last])))
  {
    var long, short := a + idle + (b + [last]), a + (b + [last]);
    PathIsTemporary(d, long);
    PathIsTemporary(d, short);
    RelativeIdle(a, idle, b + [last]);
    SeqAssoc(a + idle, b, [last]);
    SeqAssoc(a, b, [last]);
    RelativeEnds(a + idle + b, last);
    RelativeEnds(a + b, last);
    LastOfPlain(d, a + idle + b, last);
    LastOfPlain(d, a + b, last);
  }

  lemma BelowSlash(n: nat, parts: seq<string>)
    requires parts != [] && AllProper(parts)
    ensures Below(SHARED, Ups(n) + parts + [""]) == Above(n) + Join("/", parts)
  {
    var all := Ups(n) + parts;
    UpsAre(n);
    BelowLeads(n, parts);
    RelativeUps(n, parts, []);
    assert all + [""] + [] == all + [""] && all + [] == all;
    RelativeIdle(all, [""], []);
    assert all[n] == parts[0] && (all + [""])[n] == parts[0] && Proper(parts[0]);
    NotAllEmpty(all, n);
    NotAllEmpty(all + [""], n);
  }

  lemma PathSlash(d: string, parts: seq<string>)
    requires parts != []
    ensures Path(d, parts + [""]) == Path(d, parts) + "/"
  {
    JoinConcat(parts, [""]);
    assert Join("/", parts) + "/" + "" == Join("/", parts) + "/";
    SeqAssoc("/tmp/" + d + "/", Join("/", parts), "/");
  }

  /** A slash at the end stays. */
  lemma RebasedSlash(d: string, n: nat, parts: seq<string>)
    requires IsTemporaryName(d) && parts != [] && AllProper(parts)
    ensures Rebased(Path(d, Ups(n) + parts) + "/") == Above(n) + Join("/", parts) + "/"
  {
    UpsAre(n);
    PathSlash(d, Ups(n) + parts);
    PathIsTemporary(d, Ups(n) + parts + [""]);
    BelowSlash(n, parts);
  }

  /** The shared directory itself, written with a slash at the end, gets two. */
  lemma RebasedAlone(d: string)
    requires IsTemporaryName(d)
    ensures Rebased("/tmp/" + d + "/") == Above(0) + "/"
  {
    assert "/tmp/" + d + "/" + "" == "/tmp/" + d + "/";
    PathIsTemporary(d, [""]);
    assert [""][1..] == [] && [] + SHARED == SHARED && SHARED[..3] == SHARED;
  }

  lemma BelowNowhere(idle: seq<string>)
    requires Idle(idle) && idle != [""]
    ensures Below(SHARED, idle) == Above(0) + "."
  {
    IdleStays(idle, []);
    NotAllEmpty(idle, 0);
    assert [] + SHARED == SHARED && SHARED[..3] == SHARED;
    var path := "/" + Join("/", SHARED);
    assert path + "/." == path + "/" + ".";
  }

  lemma EndsWithDot(d: string, idle: seq<string>)
    requires Idle(idle) && idle != [""]
    ensures var s := Path(d, idle); s[|s| - 1] == '.'
  {
    if |idle| == 2 {
      JoinConcat(idle[..1], [".."]);
      assert idle == idle[..1] + [".."];
    }
  }

  /** Written in a way that leads nowhere else, it keeps a dot. */
  lemma RebasedNowhere(d: string, idle: seq<string>)
    requires IsTemporaryName(d) && Idle(idle) && idle != [""]
    ensures Rebased(Path(d, idle)) == Above(0) + "."
  {
    PathIsTemporary(d, idle);
    BelowNowhere(idle);
    EndsWithDot(d, idle);
    assert Above(0) + "." + "" == Above(0) + ".";
  }
}

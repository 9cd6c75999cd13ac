/** Filename clean-up: one name, one directory entry, and a whole directory tree
    (worker/worker/clientScripts/change_names.py). */
module ChangeNames {
  import opened Text
  import opened DirTree

  /** The transliteration library is a parameter; only its effect on ASCII text matters here. */
  type Unidecode = string -> string

  predicate Ascii(s: string) {
    forall i | 0 <= i < |s| :: s[i] <= '\U{007F}'
  }

  ghost predicate KeepsAscii(u: Unidecode) {
    forall s: string | Ascii(s) :: u(s) == s
  }

  predicate Allowed(c: char) {
    'a' <= c <= 'z' || 'A' <= c <= 'Z' || IsDigit(c) || c in "-_.()"
  }

  predicate Clean(s: string) {
    forall i | 0 <= i < |s| :: Allowed(s[i])
  }

  /** The characters a name may keep, written out. */
  lemma AllowedAre(c: char)
    ensures Allowed(c)
            <==> c in "ABCDEFGHIJKLMNOPQRSTUVWXYZ" || c in "abcdefghijklmnopqrstuvwxyz" || c in "0123456789-_.()"
  {
    AllowedLetters(c, "ABCDEFGHIJKLMNOPQRSTUVWXYZ", 'A');
    AllowedLetters(c, "abcdefghijklmnopqrstuvwxyz", 'a');
    AllowedLetters(c, "0123456789", '0');
    assert "0123456789-_.()" == "0123456789" + "-_.()";
  }

  lemma AllowedLetters(c: char, letters: string, first: char)
    requires forall i | 0 <= i < |letters| :: letters[i] as int == first as int + i
    ensures c in letters <==> first as int <= c as int < first as int + |letters|
  {
    if first as int <= c as int < first as int + |letters| {
      assert letters[c as int - first as int] == c;
    }
  }

  // ---------------------------------------------------------------- one name

  /** Every character that is not allowed has become an underscore, and the others stand. */
  predicate Underscored(s: string, r: string) {
    |r| == |s| && forall i | 0 <= i < |s| :: r[i] == if Allowed(s[i]) then s[i] else '_'
  }

  function Substitute(s: string): (r: string)
    ensures Underscored(s, r) && Clean(r)
    ensures Clean(s) ==> r == s
  {
    if s == "" then ""
    else [if Allowed(s[0]) then s[0] else '_'] + Substitute(s[1..])
  }

  /** change_name on the names it accepts. */
  function CleanedName(u: Unidecode, basename: string): (r: string)
    requires basename != ""
    ensures r != "" && Clean(r)
    ensures Underscored(if u(basename) == "" then basename else u(basename), r)
  {
    var decoded := u(basename);
    Substitute(if decoded == "" then basename else decoded)
  }

  function ChangeName(u: Unidecode, basename: string): (r: Result<string>)
    ensures r.Success? <==> basename != ""
    ensures r.Success? ==> r.value != "" && Clean(r.value)
    ensures r.Success? ==> Underscored(if u(basename) == "" then basename else u(basename), r.value)
    ensures r.Failure? ==> r.error == "change_name received an empty filename."
  {
    if basename == "" then Failure("change_name received an empty filename.")
    else Success(CleanedName(u, basename))
  }

  /** The names change_name leaves alone are exactly the clean ones. */
  lemma FixedPoints(u: Unidecode, basename: string)
    requires KeepsAscii(u) && basename != ""
    ensures CleanedName(u, basename) == basename <==> Clean(basename)
  {
    if Clean(basename) {
      assert Ascii(basename) by {
        forall i | 0 <= i < |basename| ensures basename[i] <= '\U{007F}' {
          assert Allowed(basename[i]);
        }
      }
    }
  }

  // ---------------------------------------------------------------- candidate names

  /** A name cut at its extension. */
  datatype Split = Split(title: string, ext: string)

  predicate OnlyDots(s: string) {
    forall i | 0 <= i < |s| :: s[i] == '.'
  }

  /** os.path.splitext on a name without separators: the extension starts at the last dot, unless nothing but dots
      stands before it. */
  function SplitExt(name: string): (r: Split)
    ensures r.title + r.ext == name
    ensures r.ext != "" ==> r.ext[0] == '.' && '.' !in r.ext[1..] && !OnlyDots(r.title)
    ensures r.ext == "" ==> forall k | 0 <= k < |name| && name[k] == '.' :: OnlyDots(name[..k])
  {
    var dot := RFind(name, '.');
    if dot >= 0 && exists i | 0 <= i < dot :: name[i] != '.'
    then Split(name[..dot], name[dot..])
    else Split(name, "")
  }

  /** Python's s[:k], where a negative k counts from the end. */
  function Slice(s: string, k: int): string {
    if k >= 0 then s[..Min(k, |s|)] else s[..Max(0, |s| + k)]
  }

  function Plain(name: Split, max: nat): string {
    Slice(name.title, max - |name.ext|) + name.ext
  }

  function Numbered(name: Split, max: nat, n: nat): string {
    Slice(name.title, max - |name.ext| - (1 + |Str(n)|)) + "_" + Str(n) + name.ext
  }

  /** The candidates in the order change_path tries them: attempt 0 is the plain name, attempt n > 0 carries n. */
  function Attempt(name: Split, max: nat, n: nat): string {
    if n == 0 then Plain(name, max) else Numbered(name, max, n)
  }

  /** The last underscore before the extension fixes the number, however the title was cut. */
  lemma AttemptsDistinct(name: Split, max: nat, m: nat, n: nat)
    requires 1 <= m && 1 <= n && Attempt(name, max, m) == Attempt(name, max, n)
    ensures m == n
  {
    var k := max - |name.ext|;
    SameNumber(Slice(name.title, k - (1 + |Str(m)|)), m, Slice(name.title, k - (1 + |Str(n)|)), n, name.ext);
  }

  lemma SameNumber(a: string, m: nat, b: string, n: nat, ext: string)
    requires a + "_" + Str(m) + ext == b + "_" + Str(n) + ext
    ensures m == n
  {
    StrDigits(m);
    StrDigits(n);
    SameTail(a + "_" + Str(m), b + "_" + Str(n), ext);
    LastUnderscore(a, Str(m), b, Str(n));
    StrInjective(m, n);
  }

  lemma SameTail(s: string, t: string, tail: string)
    requires s + tail == t + tail
    ensures s == t
  {
    assert s == (s + tail)[..|s + tail| - |tail|];
    assert t == (t + tail)[..|t + tail| - |tail|];
  }

  lemma NoLaterUnderscore(a: string, x: string)
    requires forall i | 0 <= i < |x| :: IsDigit(x[i])
    ensures (a + "_" + x)[|a|] == '_'
    ensures forall i | |a| < i < |a| + 1 + |x| :: (a + "_" + x)[i] != '_'
  {
    forall i | |a| < i < |a| + 1 + |x| ensures (a + "_" + x)[i] != '_' {
      assert (a + "_" + x)[i] == x[i - |a| - 1];
    }
  }

  lemma LastUnderscore(a: string, x: string, b: string, y: string)
    requires a + "_" + x == b + "_" + y
    requires forall i | 0 <= i < |x| :: IsDigit(x[i])
    requires forall i | 0 <= i < |y| :: IsDigit(y[i])
    ensures x == y
  {
    NoLaterUnderscore(a, x);
    NoLaterUnderscore(b, y);
    assert |a| == |b|;
    assert x == (a + "_" + x)[|a| + 1..];
  }

  /** When an attempt fits in a directory entry; the title is cut, the extension and number never are. */
  lemma AttemptFits(name: Split, max: nat, n: nat)
    ensures |Attempt(name, max, n)| <= max
            <==> |name.ext| + (if n == 0 then 0 else 1 + |Str(n)|) <= max
  {
  }

  lemma CleanConcat(s: string, t: string)
    ensures Clean(s + t) <==> Clean(s) && Clean(t)
  {
    assert forall i | 0 <= i < |s| :: s[i] == (s + t)[i];
    assert forall i | 0 <= i < |t| :: t[i] == (s + t)[|s| + i];
  }

  /** A candidate is as much of the title as fits, then the number unless it is the first candidate, then the
      extension. */
  lemma AttemptKeeps(name: Split, max: nat, n: nat)
    ensures var tail := (if n == 0 then "" else "_" + Str(n)) + name.ext;
            exists k :: && 0 <= k <= |name.title| && Attempt(name, max, n) == name.title[..k] + tail
                        && (|tail| <= max ==> k == |name.title| || k + |tail| == max)
  {
    var tail := (if n == 0 then "" else "_" + Str(n)) + name.ext;
    var k := CutAt(name.title, max - |tail|);
    if n == 0 {
      assert tail == name.ext;
    } else {
      assert |tail| == 1 + |Str(n)| + |name.ext|;
      Reassociated(name.title[..k], Str(n), name.ext);
    }
    assert Attempt(name, max, n) == name.title[..k] + tail;
  }

  lemma Reassociated(cut: string, number: string, ext: string)
    ensures cut + "_" + number + ext == cut + (("_" + number) + ext)
  {
  }

  lemma CutAt(title: string, room: int) returns (k: nat)
    ensures k <= |title| && Slice(title, room) == title[..k]
    ensures room >= 0 ==> k == |title| || k == room
  {
    k := if room >= 0 then Min(room, |title|) else Max(0, |title| + room);
  }

  lemma AttemptClean(name: Split, max: nat, n: nat)
    requires Clean(name.title) && Clean(name.ext)
    ensures Clean(Attempt(name, max, n))
  {
    var k := max - |name.ext| - (if n == 0 then 0 else 1 + |Str(n)|);
    var cut := Slice(name.title, k);
    assert Clean(cut) by {
      assert name.title == cut + name.title[|cut|..];
      CleanConcat(cut, name.title[|cut|..]);
    }
    if n == 0 {
      CleanConcat(cut, name.ext);
    } else {
      StrDigits(n);
      CleanConcat(cut, "_");
      CleanConcat(cut + "_", Str(n));
      CleanConcat(cut + "_" + Str(n), name.ext);
    }
  }

  // ---------------------------------------------------------------- one directory entry

  /** os.path.exists of a name joined to the directory: the entries, and the paths the directory itself answers to. */
  predicate Exists(taken: set<string>, name: string) {
    name in taken || name in {"", ".", ".."}
  }

  /** The numbered attempts are pairwise different and none is a path of the directory itself. */
  ghost predicate Numbering(attempt: nat -> string) {
    && (forall i: nat, j: nat | 1 <= i < j :: attempt(i) != attempt(j))
    && (forall i: nat | 1 <= i :: attempt(i) !in {"", ".", ".."})
  }

  lemma NumberedIsNoSpecialPath(name: Split, max: nat, n: nat)
    ensures Numbered(name, max, n) !in {"", ".", ".."}
  {
    assert Numbered(name, max, n)[|Slice(name.title, max - |name.ext| - (1 + |Str(n)|))|] == '_';
  }

  function Attempts(name: Split, max: nat): (attempt: nat -> string)
    ensures Numbering(attempt)
  {
    AttemptsNumber(name, max);
    (n: nat) => Attempt(name, max, n)
  }

  lemma AttemptsNumber(name: Split, max: nat)
    ensures forall i: nat, j: nat | 1 <= i < j :: Attempt(name, max, i) != Attempt(name, max, j)
    ensures forall i: nat | 1 <= i :: Attempt(name, max, i) !in {"", ".", ".."}
  {
    forall i: nat, j: nat | 1 <= i < j ensures Attempt(name, max, i) != Attempt(name, max, j) {
      if Attempt(name, max, i) == Attempt(name, max, j) {
        AttemptsDistinct(name, max, i, j);
        assert false;
      }
    }
    forall i: nat | 1 <= i ensures Attempt(name, max, i) !in {"", ".", ".."} {
      NumberedIsNoSpecialPath(name, max, i);
    }
  }

  ghost function Tried(attempt: nat -> string, k: nat): set<string> {
    if k <= 1 then {} else Tried(attempt, k - 1) + {attempt(k - 1)}
  }

  lemma {:induction false} TriedSize(taken: set<string>, attempt: nat -> string, k: nat)
    requires Numbering(attempt) && forall j | 1 <= j < k :: Exists(taken, attempt(j))
    ensures Tried(attempt, k) <= taken && k <= |Tried(attempt, k)| + 1
    ensures forall x | x in Tried(attempt, k) :: exists j: nat :: 1 <= j < k && x == attempt(j)
  {
    if k > 1 {
      TriedSize(taken, attempt, k - 1);
    }
  }

  /** Pigeonhole: when the first n attempts exist, the directory has at least n - 1 entries. */
  lemma TriedWithinTaken(taken: set<string>, attempt: nat -> string, n: nat)
    requires Numbering(attempt) && forall j: nat | j < n :: Exists(taken, attempt(j))
    ensures n <= |taken| + 1
  {
    TriedSize(taken, attempt, n);
    SubsetSize(Tried(attempt, n), taken);
  }

  /** The first attempt that does not exist yet, given that the first n do. */
  function FirstFree(taken: set<string>, attempt: nat -> string, n: nat := 0): (k: nat)
    requires Numbering(attempt) && forall j: nat | j < n :: Exists(taken, attempt(j))
    ensures !Exists(taken, attempt(k))
    ensures forall j: nat | j < k :: Exists(taken, attempt(j))
    decreases |taken| + 2 - n
  {
    if !Exists(taken, attempt(n)) then n
    else
      TriedWithinTaken(taken, attempt, n + 1);
      FirstFree(taken, attempt, n + 1)
  }

  /** A directory with n entries makes change_path try at most n + 1 numbers. */
  lemma FirstFreeBound(taken: set<string>, attempt: nat -> string)
    requires Numbering(attempt)
    ensures FirstFree(taken, attempt) <= |taken| + 1
  {
    TriedWithinTaken(taken, attempt, FirstFree(taken, attempt));
  }

  lemma FirstFreeIs(taken: set<string>, attempt: nat -> string, k: nat)
    requires Numbering(attempt) && !Exists(taken, attempt(k)) && forall j: nat | j < k :: Exists(taken, attempt(j))
    ensures FirstFree(taken, attempt) == k
  {
    var first := FirstFree(taken, attempt);
    assert !Exists(taken, attempt(first));
  }

  /** The outcome of change_path for one entry of a directory whose listing is taken. */
  function NewName(u: Unidecode, taken: set<string>, basename: string, max: nat): (r: Result<string>)
    requires basename != ""
  {
    var cleaned := CleanedName(u, basename);
    if basename == cleaned then Success(basename) else FreeName(taken, SplitExt(cleaned), max)
  }

  function FreeName(taken: set<string>, name: Split, max: nat): (r: Result<string>) {
    var changed := Attempt(name, max, FirstFree(taken, Attempts(name, max)));
    if |changed| <= max then Success(changed) else Failure("File name too long")
  }

  /** A renamed entry is clean, fits, and takes no name already in use; only unclean entries are renamed. */
  lemma {:induction false} NewNameIsFree(u: Unidecode, taken: set<string>, basename: string, max: nat)
    requires KeepsAscii(u) && basename != "" && basename !in {".", ".."}
    requires NewName(u, taken, basename, max).Success?
    ensures var name := NewName(u, taken, basename, max).value;
            && Clean(name) && name !in {"", ".", ".."}
            && (name == basename <==> Clean(basename))
            && (name != basename ==> name !in taken && |name| <= max)
  {
    FixedPoints(u, basename);
    var name := SplitExt(CleanedName(u, basename));
    CleanConcat(name.title, name.ext);
    AttemptClean(name, max, FirstFree(taken, Attempts(name, max)));
  }

  /** The candidate is the first that the directory does not answer to. */
  predicate FirstCandidate(taken: set<string>, name: Split, max: nat, k: nat, value: string) {
    && value == Attempt(name, max, k)
    && value !in taken && value !in {"", ".", ".."}
    && forall j: nat | j < k :: Attempt(name, max, j) in taken || Attempt(name, max, j) in {"", ".", ".."}
  }

  lemma FreeIsFirst(taken: set<string>, name: Split, max: nat)
    ensures var k := FirstFree(taken, Attempts(name, max));
            FirstCandidate(taken, name, max, k, Attempt(name, max, k))
  {
    var attempt := Attempts(name, max);
    var k := FirstFree(taken, attempt);
    assert attempt(k) == Attempt(name, max, k);
    forall j: nat | j < k ensures Exists(taken, Attempt(name, max, j)) {
      assert attempt(j) == Attempt(name, max, j);
    }
  }

  lemma NewNameIsFirst(u: Unidecode, taken: set<string>, basename: string, max: nat)
    requires KeepsAscii(u) && basename != "" && !Clean(basename) && NewName(u, taken, basename, max).Success?
    ensures exists k: nat ::
              FirstCandidate(
                taken, SplitExt(CleanedName(u, basename)), max, k, NewName(u, taken, basename, max).value)
  {
    FixedPoints(u, basename);
    FreeIsFirst(taken, SplitExt(CleanedName(u, basename)), max);
  }

  /** Renaming can only fail because the extension and the number found leave no room. */
  lemma {:induction false} NewNameSucceeds(u: Unidecode, taken: set<string>, basename: string, max: nat)
    requires basename != ""
    ensures var name := SplitExt(CleanedName(u, basename));
            var k := FirstFree(taken, Attempts(name, max));
            && (NewName(u, taken, basename, max).Success?
                <==> basename == name.title + name.ext || |name.ext| + (if k == 0 then 0 else 1 + |Str(k)|) <= max)
            && (|name.ext| + 1 + |Str(|taken| + 1)| <= max ==> NewName(u, taken, basename, max).Success?)
  {
    var name := SplitExt(CleanedName(u, basename));
    var k := FirstFree(taken, Attempts(name, max));
    AttemptFits(name, max, k);
    FirstFreeBound(taken, Attempts(name, max));
    StrMonotone(k, |taken| + 1);
  }

  /** change_path as it runs: count up until the candidate does not exist. */
  method ChangePath(u: Unidecode, taken: set<string>, basename: string, max: nat) returns (r: Result<string>)
    ensures basename == "" ==> r == Failure("change_name received an empty filename.")
    ensures basename != "" ==> r == NewName(u, taken, basename, max)
  {
    var cleaned := ChangeName(u, basename);
    if cleaned.Failure? {
      return cleaned;
    }
    var changed := cleaned.value;
    if basename == changed {
      return Success(basename);
    }
    var name := SplitExt(changed);
    ghost var attempt, tried: nat := Attempts(name, max), 0;
    var n := 1;
    changed := Plain(name, max);
    while Exists(taken, changed)
      invariant n == tried + 1 && changed == attempt(tried)
      invariant forall j: nat | j < tried :: Exists(taken, attempt(j))
      decreases |taken| + 1 - tried
    {
      TriedWithinTaken(taken, attempt, n);
      changed := Numbered(name, max, n);
      n, tried := n + 1, tried + 1;
    }
    FirstFreeIs(taken, attempt, tried);
    r := if |changed| <= max then Success(changed) else Failure("File name too long");
  }

  // ---------------------------------------------------------------- a whole tree

  /** One tuple yielded by change_tree. */
  datatype Rename = Rename(oldPath: string, newPath: string, isDir: bool, wasChanged: bool)

  /** The directory as the walk leaves it, the tuples yielded, and the exception raised on the way, if any. */
  datatype Outcome = Outcome(dir: seq<Node>, renames: seq<Rename>, error: Option<string>)

  predicate AllClean(dir: seq<Node>) {
    dir == [] || (CleanNode(dir[0]) && AllClean(dir[1..]))
  }

  predicate CleanNode(node: Node) {
    Clean(node.name) && (node.Dir? ==> AllClean(node.entries))
  }

  /** Equal up to the names: same kinds, same contents, same order, at every level. */
  predicate SameShape(a: seq<Node>, b: seq<Node>) {
    if a == [] || b == [] then a == b else SameKind(a[0], b[0]) && SameShape(a[1..], b[1..])
  }

  predicate SameKind(a: Node, b: Node) {
    match (a, b)
    case (File(_, c), File(_, d)) => c == d
    case (Dir(_, c), Dir(_, d)) => SameShape(c, d)
    case _ => false
  }

  /** What one round of the loop does: the entry under its new name, the tuples for it and everything below it,
      and the exception raised in between. */
  datatype Round = Round(node: Node, renames: seq<Rename>, error: Option<string>)

  /** change_tree on the entries still to visit, in a directory whose current listing is names. An exception leaves
      the entries visited so far under their new names and the others as they are. */
  function ChangeEntries(u: Unidecode, max: nat, names: set<string>, todo: seq<Node>, start: string, oldStart: string)
    : (r: Outcome)
    requires ValidDir(todo)
    decreases todo, 0
  {
    if todo == [] then Outcome([], [], None)
    else
      var first := ChangeOne(u, max, names, todo[0], start, oldStart);
      if first.error.Some? then Outcome([first.node] + todo[1..], first.renames, first.error)
      else
        var rest :=
          ChangeEntries(u, max, names - {todo[0].name} + {first.node.name}, todo[1..], start, oldStart);
        Outcome([first.node] + rest.dir, first.renames + rest.renames, rest.error)
  }

  function ChangeOne(u: Unidecode, max: nat, names: set<string>, node: Node, start: string, oldStart: string)
    : (r: Round)
    requires ValidNode(node)
    decreases node, 1
  {
    var name := NewName(u, names, node.name, max);
    if name.Failure? then Round(node, [], Some(name.error))
    else
      var newPath := Below(start, name.value);
      var oldPath := Below(oldStart, node.name);
      var inner :=
        if node.Dir? then ChangeEntries(u, max, Names(node.entries), node.entries, newPath, oldPath)
        else Outcome([], [], None);
      Round(
        Moved(node, name.value, inner.dir),
        [Rename(oldPath, newPath, node.Dir?, newPath != oldPath)] + inner.renames,
        inner.error)
  }

  function Moved(node: Node, name: string, entries: seq<Node>): Node {
    match node
    case File(_, content) => File(name, content)
    case Dir(_, _) => Dir(name, entries)
  }
}

/** String helpers shared by the components: decimal numerals, character searches and joining. */
module Text {

  datatype Option<+T> = None | Some(value: T)

  datatype Result<+T> = Success(value: T) | Failure(error: string) {
    predicate IsFailure() { Failure? }
    function PropagateFailure<U>(): Result<U>
      requires Failure?
    {
      Failure(error)
    }
    function Extract(): T
      requires Success?
    {
      value
    }
  }

  function Digit(d: nat): char
    requires d < 10
  {
    "0123456789"[d]
  }

  predicate IsDigit(c: char) {
    '0' <= c <= '9'
  }

  /** The decimal numeral of n, as both Python's str and Go's strconv write it. */
  function Str(n: nat): (s: string)
    ensures 0 < |s|
  {
    if n < 10 then [Digit(n)] else Str(n / 10) + [Digit(n % 10)]
  }

  lemma {:induction false} StrDigits(n: nat)
    ensures forall i | 0 <= i < |Str(n)| :: IsDigit(Str(n)[i])
  {
    if n >= 10 {
      StrDigits(n / 10);
    }
  }

  lemma {:induction false} StrInjective(a: nat, b: nat)
    requires Str(a) == Str(b)
    ensures a == b
    decreases a
  {
    var s, t := Str(a), Str(b);
    assert s[|s| - 1] == Digit(a % 10) && t[|t| - 1] == Digit(b % 10);
    if a >= 10 && b >= 10 {
      assert Str(a / 10) == s[..|s| - 1] == t[..|t| - 1] == Str(b / 10);
      StrInjective(a / 10, b / 10);
    }
  }

  /** What a decimal numeral stands for. */
  function NumberOf(s: string): int {
    if s == "" then 0 else 10 * NumberOf(s[..|s| - 1]) + (s[|s| - 1] as int - '0' as int)
  }

  /** The numeral of n is the decimal notation of n, without leading zeros. */
  lemma {:induction false} StrIsDecimal(n: nat)
    ensures NumberOf(Str(n)) == n && (n > 0 ==> Str(n)[0] != '0') && (n == 0 ==> Str(n) == "0")
  {
    if n >= 10 {
      StrIsDecimal(n / 10);
      assert Str(n)[..|Str(n)| - 1] == Str(n / 10);
    } else {
      assert Str(n)[..0] == "";
    }
  }

  /** Numerals never get shorter as the number grows. */
  lemma {:induction false} StrMonotone(a: nat, b: nat)
    requires a <= b
    ensures |Str(a)| <= |Str(b)|
    decreases b
  {
    if a >= 10 {
      StrMonotone(a / 10, b / 10);
    }
  }

  function Min(a: int, b: int): int {
    if a <= b then a else b
  }

  function Max(a: int, b: int): int {
    if a <= b then b else a
  }

  /** The largest index holding c, or -1. */
  function RFind(s: string, c: char): (k: int)
    ensures -1 <= k < |s|
    ensures 0 <= k ==> s[k] == c
    ensures forall i | k < i < |s| :: s[i] != c
  {
    if s == [] then -1
    else if s[|s| - 1] == c then |s| - 1
    else RFind(s[..|s| - 1], c)
  }

  /** Python's rstrip("/"). */
  function RStripSlashes(s: string): string {
    if s != "" && s[|s| - 1] == '/' then RStripSlashes(s[..|s| - 1]) else s
  }

  /** r is s without the slashes at its end. */
  predicate SlashesCut(s: string, r: string) {
    r <= s && (forall i | |r| <= i < |s| :: s[i] == '/') && (r == "" || r[|r| - 1] != '/')
  }

  lemma {:induction false} RStripIsCut(s: string, r: string)
    ensures RStripSlashes(s) == r <==> SlashesCut(s, r)
  {
    if s != "" && s[|s| - 1] == '/' {
      var front := s[..|s| - 1];
      RStripIsCut(front, r);
      if SlashesCut(s, r) {
        assert |r| < |s|;
        assert forall i | |r| <= i < |front| :: front[i] == s[i];
      }
      if SlashesCut(front, r) {
        assert forall i | |r| <= i < |front| :: s[i] == front[i];
      }
    } else if SlashesCut(s, r) {
      assert |r| == |s|;
    }
  }

  predicate IsPrefix(p: string, s: string) {
    |p| <= |s| && s[..|p|] == p
  }

  function Join(sep: string, parts: seq<string>): string {
    if |parts| == 0 then ""
    else if |parts| == 1 then parts[0]
    else parts[0] + sep + Join(sep, parts[1..])
  }

  predicate Distinct<T(==)>(s: seq<T>) {
    forall i, j | 0 <= i < j < |s| :: s[i] != s[j]
  }

  lemma SeqAssoc<T>(a: seq<T>, b: seq<T>, c: seq<T>)
    ensures (a + b) + c == a + (b + c)
  {
  }

  function Elements<T>(s: seq<T>): set<T> {
    set x | x in s
  }

  lemma {:induction false} DistinctSize<T>(s: seq<T>)
    requires Distinct(s)
    ensures |Elements(s)| == |s|
  {
    if s != [] {
      DistinctSize(s[1..]);
      assert Elements(s) == {s[0]} + Elements(s[1..]);
    }
  }

  lemma DistinctHead<T>(s: seq<T>)
    requires Distinct(s) && s != []
    ensures s[0] !in s[1..] && Distinct(s[1..])
  {
    assert forall i | 0 <= i < |s[1..]| :: s[1..][i] == s[i + 1];
  }

  lemma DistinctConcat<T>(a: seq<T>, b: seq<T>)
    requires Distinct(a) && Distinct(b) && forall x | x in a :: x !in b
    ensures Distinct(a + b)
  {
    forall i, j | 0 <= i < j < |a + b| ensures (a + b)[i] != (a + b)[j] {
      if i < |a| <= j {
        assert a[i] in a && b[j - |a|] in b;
      }
    }
  }

  /** The first position of x, or the length of s. */
  function FirstIndex<T(==)>(s: seq<T>, x: T): (k: nat)
    ensures k <= |s| && (k < |s| <==> x in s) && (k < |s| ==> s[k] == x)
  {
    if s == [] || s[0] == x then 0 else 1 + FirstIndex(s[1..], x)
  }

  /** The search loop of the scripts and of the controller's methods. */
  method IndexOf<T(==)>(s: seq<T>, x: T) returns (k: nat)
    ensures k == FirstIndex(s, x)
  {
    k := 0;
    while k < |s| && s[k] != x
      invariant k <= |s| && FirstIndex(s, x) == k + FirstIndex(s[k..], x)
    {
      assert s[k..][1..] == s[k + 1..];
      k := k + 1;
    }
    assert k < |s| ==> s[k..][0] == x;
  }

  /** s without its first x, if any. */
  function RemoveFirst<T(==)>(s: seq<T>, x: T): seq<T> {
    var k := FirstIndex(s, x);
    if k < |s| then s[..k] + s[k + 1..] else s
  }

  lemma RemoveFirstFrom<T>(x0: T, s: seq<T>, x: T)
    ensures RemoveFirst([x0] + s, x) == if x0 == x then s else [x0] + RemoveFirst(s, x)
  {
    var t := [x0] + s;
    assert t[1..] == s;
    if x0 != x {
      var k := FirstIndex(s, x);
      assert FirstIndex(t, x) == k + 1;
      if k < |s| {
        assert t[..k + 1] == [x0] + s[..k] && t[k + 2..] == s[k + 1..];
      }
    }
  }

  lemma RemoveFirstKeeps<T>(s: seq<T>, x: T)
    requires Distinct(s)
    ensures Distinct(RemoveFirst(s, x))
    ensures forall d :: d in RemoveFirst(s, x) <==> d in s && d != x
  {
    var k := FirstIndex(s, x);
    var r := RemoveFirst(s, x);
    assert forall i | 0 <= i < |r| :: r[i] == if i < k then s[i] else s[i + 1];
    forall d | d in s && d != x ensures d in r {
      var i :| 0 <= i < |s| && s[i] == d;
      assert r[if i <= k then i else i - 1] == d;
    }
  }

  lemma {:induction false} SubsetSize<T>(a: set<T>, b: set<T>)
    requires a <= b
    ensures |a| <= |b|
    decreases |a|
  {
    if a != {} {
      var x :| x in a;
      SubsetSize(a - {x}, b - {x});
    }
  }

  /** Python's str.replace(old, new, 1). */
  function ReplaceFirst(s: string, from: string, to: string): string {
    if IsPrefix(from, s) then to + s[|from|..]
    else if s == "" then ""
    else [s[0]] + ReplaceFirst(s[1..], from, to)
  }
}

/** Small notions shared by every model: optional values and the two orders the
    program sorts by (Python compares strings by code point). */
module Common {

  datatype Option<+T> = None | Some(value: T)

  /** Lexicographic order on sequences of code units. */
  predicate LexLe(a: seq<int>, b: seq<int>)
  {
    if a == [] then true
    else if b == [] then false
    else if a[0] != b[0] then a[0] < b[0]
    else LexLe(a[1..], b[1..])
  }

  lemma {:induction false} LexTotal(a: seq<int>, b: seq<int>)
    ensures LexLe(a, b) || LexLe(b, a)
    ensures LexLe(a, b) && LexLe(b, a) ==> a == b
  {
    if a != [] && b != [] && a[0] == b[0] {
      LexTotal(a[1..], b[1..]);
      assert a == [a[0]] + a[1..] && b == [b[0]] + b[1..];
    }
  }

  lemma {:induction false} LexTransitive(a: seq<int>, b: seq<int>, c: seq<int>)
    requires LexLe(a, b) && LexLe(b, c)
    ensures LexLe(a, c)
  {
    if a != [] && b != [] && c != [] && a[0] == b[0] == c[0] {
      LexTransitive(a[1..], b[1..], c[1..]);
    }
  }

  /** The code points of a string. */
  function Codes(s: string): (r: seq<int>)
  {
    seq(|s|, i requires 0 <= i < |s| => s[i] as int)
  }

  lemma CodesInjective(a: string, b: string)
    requires Codes(a) == Codes(b)
    ensures a == b
  {
    assert |Codes(a)| == |a| && |Codes(b)| == |b|;
    forall i | 0 <= i < |a| ensures a[i] == b[i] {
      assert Codes(a)[i] == Codes(b)[i];
    }
  }

  predicate StrLe(a: string, b: string)
  {
    LexLe(Codes(a), Codes(b))
  }

  lemma StrOrder(a: string, b: string)
    ensures StrLe(a, b) || StrLe(b, a)
    ensures StrLe(a, b) && StrLe(b, a) ==> a == b
  {
    LexTotal(Codes(a), Codes(b));
    if StrLe(a, b) && StrLe(b, a) {
      CodesInjective(a, b);
    }
  }

  lemma StrTransitive(a: string, b: string, c: string)
    requires StrLe(a, b) && StrLe(b, c)
    ensures StrLe(a, c)
  {
    LexTransitive(Codes(a), Codes(b), Codes(c));
  }

  /** m is the first of the names in s once suffix is appended to each. */
  predicate IsFirst(m: string, s: set<string>, suffix: string)
  {
    m in s && forall x :: x in s ==> StrLe(m + suffix, x + suffix)
  }

  lemma {:induction false} FirstExists(s: set<string>, suffix: string)
    requires s != {}
    ensures exists m :: IsFirst(m, s, suffix)
  {
    var x :| x in s;
    var rest := s - {x};
    if rest == {} {
      StrOrder(x + suffix, x + suffix);
      forall y | y in s ensures StrLe(x + suffix, y + suffix) {
        assert y !in rest;
      }
      assert IsFirst(x, s, suffix);
    } else {
      FirstExists(rest, suffix);
      var m :| IsFirst(m, rest, suffix);
      StrOrder(x + suffix, m + suffix);
      StrOrder(x + suffix, x + suffix);
      if StrLe(x + suffix, m + suffix) {
        forall y | y in s ensures StrLe(x + suffix, y + suffix) {
          if y != x { StrTransitive(x + suffix, m + suffix, y + suffix); }
        }
        assert IsFirst(x, s, suffix);
      } else {
        assert IsFirst(m, s, suffix);
      }
    }
  }

  lemma FirstUnique(a: string, b: string, s: set<string>, suffix: string)
    requires IsFirst(a, s, suffix) && IsFirst(b, s, suffix)
    ensures a == b
  {
    StrOrder(a + suffix, b + suffix);
    assert a == (a + suffix)[..|a + suffix| - |suffix|];
    assert b == (b + suffix)[..|b + suffix| - |suffix|];
  }

  function First(s: set<string>, suffix: string): (m: string)
    requires s != {}
    ensures IsFirst(m, s, suffix)
  {
    FirstExists(s, suffix);
    assert forall a, b :: IsFirst(a, s, suffix) && IsFirst(b, s, suffix) ==> a == b by {
      forall a, b | IsFirst(a, s, suffix) && IsFirst(b, s, suffix) ensures a == b {
        FirstUnique(a, b, s, suffix);
      }
    }
    var m :| IsFirst(m, s, suffix);
    m
  }

  /** A set of names in the order `sorted` gives the file names x + suffix. */
  function Listing(s: set<string>, suffix: string): (r: seq<string>)
    ensures forall x :: x in r <==> x in s
    ensures |r| == |s|
    ensures forall i, j :: 0 <= i < j < |r| ==> r[i] != r[j] && StrLe(r[i] + suffix, r[j] + suffix)
  {
    if s == {} then [] else
      var m := First(s, suffix);
      [m] + Listing(s - {m}, suffix)
  }

  /** The characters Python's str methods and `\s` treat as white space. */
  predicate PySpace(c: char) {
    var n := c as int;
    9 <= n <= 13 || 28 <= n <= 32 || n == 0x85 || n == 0xA0 || n == 0x1680 || 0x2000 <= n <= 0x200A
    || n == 0x2028 || n == 0x2029 || n == 0x202F || n == 0x205F || n == 0x3000
  }

  /** str.split() without arguments, joined again with single spaces. */
  function Squeeze(s: string): (r: string)
    decreases |s|
  {
    if s == [] then []
    else if PySpace(s[0]) then Squeeze(s[1..])
    else
      var n := WordLength(s);
      var rest := Squeeze(s[n..]);
      if rest == [] then s[..n] else s[..n] + [' '] + rest
  }

  function WordLength(s: string): (n: nat)
    ensures n <= |s| && forall i :: 0 <= i < n ==> !PySpace(s[i])
    ensures n < |s| ==> PySpace(s[n])
    ensures s != [] && !PySpace(s[0]) ==> n > 0
    decreases |s|
  {
    if s == [] || PySpace(s[0]) then 0 else
      var m := WordLength(s[1..]);
      assert forall i :: 0 < i < m + 1 ==> s[i] == s[1..][i - 1];
      1 + m
  }

  function Cut(s: string, n: nat): (r: string) {
    if |s| <= n then s else s[..n]
  }

  /** A natural number in decimal. */
  function Digits(n: nat): (r: string)
    ensures r != "" && forall i :: 0 <= i < |r| ==> '0' <= r[i] <= '9'
  {
    (if n < 10 then "" else Digits(n / 10)) + ['0' + (n % 10) as char]
  }

  function IntText(n: int): (r: string) {
    if n < 0 then "-" + Digits(-n) else Digits(n)
  }

  predicate AllDigits(s: string) {
    forall i :: 0 <= i < |s| ==> '0' <= s[i] <= '9'
  }

  /** The number a run of digits stands for. */
  function NatOf(s: string): (n: nat)
    requires AllDigits(s)
  {
    if s == "" then 0 else NatOf(s[..|s| - 1]) * 10 + (s[|s| - 1] as int - '0' as int)
  }

  lemma {:induction false} NatOfDigits(n: nat)
    ensures NatOf(Digits(n)) == n
  {
    var s := Digits(n);
    var last := ['0' + (n % 10) as char];
    if n < 10 {
      assert s == last;
    } else {
      NatOfDigits(n / 10);
      assert s[..|s| - 1] == Digits(n / 10) && s[|s| - 1] == last[0];
    }
  }

  ghost predicate IsLeast(x: int, s: set<int>) {
    x in s && forall y :: y in s ==> x <= y
  }

  lemma SomeMember(s: set<int>)
    ensures s == {} || exists x :: x in s
  {
    if forall x :: x !in s {
      assert s == {};
    }
  }

  lemma {:induction false} LeastExists(s: set<int>)
    requires s != {}
    ensures exists x :: IsLeast(x, s)
  {
    SomeMember(s);
    var x :| x in s;
    var rest := s - {x};
    if rest == {} {
      assert forall z :: z in s ==> z == x || z in rest;
      assert IsLeast(x, s);
    } else {
      LeastExists(rest);
      var y :| IsLeast(y, rest);
      assert forall z :: z in s ==> z == x || z in rest;
      assert IsLeast(if x <= y then x else y, s);
    }
  }

  function Least(s: set<int>): (x: int)
    requires s != {}
    ensures IsLeast(x, s)
  {
    LeastExists(s);
    assert forall a, b :: IsLeast(a, s) && IsLeast(b, s) ==> a == b;
    var x :| x in s && forall y :: y in s ==> x <= y;
    x
  }

  // ---- parts of a sequence, in its order

  /** r lists what s has at these places, in the same order. */
  ghost predicate Picks<T>(r: seq<T>, s: seq<T>, at: seq<nat>) {
    && |at| == |r| && (forall i, j :: 0 <= i < j < |at| ==> at[i] < at[j])
    && forall i :: 0 <= i < |at| ==> at[i] < |s| && r[i] == s[at[i]]
  }

  function Filter<T>(s: seq<T>, p: T -> bool): (r: seq<T>) {
    if s == [] then [] else Filter(s[..|s| - 1], p) + if p(s[|s| - 1]) then [s[|s| - 1]] else []
  }

  function Places<T>(s: seq<T>, p: T -> bool): (at: seq<nat>) {
    if s == [] then [] else Places(s[..|s| - 1], p) + if p(s[|s| - 1]) then [|s| - 1] else []
  }

  lemma {:induction false} PlacesIncrease<T>(s: seq<T>, p: T -> bool)
    ensures forall i :: 0 <= i < |Places(s, p)| ==> Places(s, p)[i] < |s|
    ensures forall i, j :: 0 <= i < j < |Places(s, p)| ==> Places(s, p)[i] < Places(s, p)[j]
  {
    if s != [] {
      PlacesIncrease(s[..|s| - 1], p);
    }
  }

  lemma {:induction false} PlacesPass<T>(s: seq<T>, p: T -> bool)
    ensures forall i: nat :: i in Places(s, p) <==> i < |s| && p(s[i])
  {
    if s != [] {
      var n := |s| - 1;
      PlacesPass(s[..n], p);
      assert forall i: nat :: i in Places(s, p) <==> i in Places(s[..n], p) || (i == n && p(s[n]));
    }
  }

  lemma {:induction false} PlacesHold<T>(s: seq<T>, p: T -> bool)
    ensures |Places(s, p)| == |Filter(s, p)|
    ensures forall i :: 0 <= i < |Filter(s, p)| ==> Places(s, p)[i] < |s| && Filter(s, p)[i] == s[Places(s, p)[i]]
  {
    if s != [] {
      PlacesHold(s[..|s| - 1], p);
    }
  }

  /** A filter keeps exactly the elements that pass, each where it stood among them. */
  lemma FilterPicks<T>(s: seq<T>, p: T -> bool)
    ensures Picks(Filter(s, p), s, Places(s, p))
    ensures forall i: nat :: i in Places(s, p) <==> i < |s| && p(s[i])
  {
    PlacesIncrease(s, p);
    PlacesPass(s, p);
    PlacesHold(s, p);
    hide Filter, Places;
  }

  lemma {:induction false} FilterCat<T>(a: seq<T>, b: seq<T>, p: T -> bool)
    ensures Filter(a + b, p) == Filter(a, p) + Filter(b, p)
    decreases |b|
  {
    if b == [] {
      assert a + b == a;
    } else {
      assert (a + b)[..|a + b| - 1] == a + b[..|b| - 1];
      FilterCat(a, b[..|b| - 1], p);
    }
  }

  /** The same from the front. */
  lemma FilterFirst<T>(s: seq<T>, p: T -> bool)
    requires s != []
    ensures Filter(s, p) == (if p(s[0]) then [s[0]] else []) + Filter(s[1..], p)
  {
    assert s == [s[0]] + s[1..];
    FilterCat([s[0]], s[1..], p);
    assert [s[0]][..0] == [];
  }

  /** What passes a filter, however often it occurs. */
  lemma {:induction false} FilterHas<T>(s: seq<T>, p: T -> bool, x: T)
    ensures x in Filter(s, p) <==> x in s && p(x)
    ensures multiset(Filter(s, p))[x] == if p(x) then multiset(s)[x] else 0
  {
    if s != [] {
      var front, last := s[..|s| - 1], s[|s| - 1];
      FilterHas(front, p, x);
      assert s == front + [last];
    }
  }
}

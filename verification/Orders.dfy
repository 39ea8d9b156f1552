/**
 Total orders, the ordered listing of a set (Python's `sorted`), and the decimal
 text that ids are made of.
 */
module Orders {

  ghost predicate StrictTotal<T(!new)>(lt: (T, T) -> bool) {
    && (forall x :: !lt(x, x))
    && (forall x, y, z :: lt(x, y) && lt(y, z) ==> lt(x, z))
    && (forall x, y :: x == y || lt(x, y) || lt(y, x))
  }

  ghost predicate NoDuplicates<T>(s: seq<T>) {
    forall i, j :: 0 <= i < j < |s| ==> s[i] != s[j]
  }

  ghost predicate Ascending<T>(s: seq<T>, lt: (T, T) -> bool) {
    forall i, j :: 0 <= i < j < |s| ==> lt(s[i], s[j])
  }

  ghost predicate IsLeast<T(!new)>(m: T, s: set<T>, lt: (T, T) -> bool) {
    m in s && forall y :: y in s ==> y == m || lt(m, y)
  }

  lemma {:induction false} LeastExists<T(!new)>(s: set<T>, lt: (T, T) -> bool)
    requires StrictTotal(lt) && s != {}
    ensures exists m :: IsLeast(m, s, lt)
    decreases |s|
  {
    var x :| x in s;
    if s - {x} == {} {
      assert s == {x};
      assert IsLeast(x, s, lt);
    } else {
      LeastExists(s - {x}, lt);
      var r :| IsLeast(r, s - {x}, lt);
      var m := if lt(x, r) then x else r;
      forall y | y in s ensures y == m || lt(m, y) {
        if y != x { assert y in s - {x}; }
      }
      assert IsLeast(m, s, lt);
    }
  }

  /** The elements of `s`, each once, in increasing order. */
  function Sorted<T(!new)>(s: set<T>, lt: (T, T) -> bool): (r: seq<T>)
    requires StrictTotal(lt)
    ensures forall x :: x in r <==> x in s
    ensures NoDuplicates(r) && |r| == |s|
  {
    if s == {} then [] else
      LeastExists(s, lt);
      var m :| m in s && forall y :: y in s ==> y == m || lt(m, y);
      [m] + Sorted(s - {m}, lt)
  }

  lemma {:induction false} SortedAscends<T(!new)>(s: set<T>, lt: (T, T) -> bool)
    requires StrictTotal(lt)
    ensures Ascending(Sorted(s, lt), lt)
    decreases |s|
  {
    if s != {} {
      LeastExists(s, lt);
      var m :| m in s && forall y :: y in s ==> y == m || lt(m, y);
      SortedAscends(s - {m}, lt);
      LeastFirst(m, s, Sorted(s - {m}, lt), lt);
    }
  }

  lemma LeastFirst<T(!new)>(m: T, s: set<T>, rest: seq<T>, lt: (T, T) -> bool)
    requires forall y :: y in s ==> y == m || lt(m, y)
    requires forall x :: x in rest <==> x in s - {m}
    requires Ascending(rest, lt)
    ensures Ascending([m] + rest, lt)
  {
    assert forall k :: 0 <= k < |rest| ==> rest[k] in s - {m};
  }

  lemma Whole<T>(s: seq<T>)
    ensures s[..|s|] == s
  {
  }

  /** Python's `<` on strings. */
  predicate LexLess(a: string, b: string) {
    b != "" && (a == "" || a[0] < b[0] || (a[0] == b[0] && LexLess(a[1..], b[1..])))
  }

  lemma {:induction false} LexTransitive(a: string, b: string, c: string)
    requires LexLess(a, b) && LexLess(b, c)
    ensures LexLess(a, c)
  {
    if a != "" && a[0] == b[0] && b[0] == c[0] {
      LexTransitive(a[1..], b[1..], c[1..]);
    }
  }

  lemma {:induction false} LexTrichotomy(a: string, b: string)
    ensures !LexLess(a, a)
    ensures a == b || LexLess(a, b) || LexLess(b, a)
  {
    if a != "" { LexTrichotomy(a[1..], if b == "" then b else b[1..]); }
    if a != "" && b != "" && a[0] == b[0] && a[1..] == b[1..] {
      assert a == [a[0]] + a[1..] && b == [b[0]] + b[1..];
    }
  }

  lemma LexAsymmetric(a: string, b: string)
    ensures !(LexLess(a, b) && LexLess(b, a))
  {
    LexTrichotomy(a, a);
    if LexLess(a, b) && LexLess(b, a) { LexTransitive(a, b, a); }
  }

  lemma LexStrictTotal()
    ensures StrictTotal(LexLess)
  {
    forall a, b ensures !LexLess(a, a) && (a == b || LexLess(a, b) || LexLess(b, a)) { LexTrichotomy(a, b); }
    forall a, b, c | LexLess(a, b) && LexLess(b, c) ensures LexLess(a, c) { LexTransitive(a, b, c); }
  }

  function NatText(n: nat): (s: string)
    ensures s != "" && forall c :: c in s ==> '0' <= c <= '9'
  {
    if n < 10 then ['0' + n as char] else NatText(n / 10) + ['0' + (n % 10) as char]
  }

  function IntText(n: int): (s: string)
    ensures s != "" && forall c :: c in s ==> '0' <= c <= '9' || c == '-'
  {
    if n < 0 then "-" + NatText(-n) else NatText(n)
  }

  lemma {:induction false} NatTextInjective(m: nat, n: nat)
    requires NatText(m) == NatText(n)
    ensures m == n
  {
    var s, t := NatText(m), NatText(n);
    assert s[|s| - 1] == '0' + (m % 10) as char;
    assert t[|t| - 1] == '0' + (n % 10) as char;
    assert m % 10 == n % 10;
    if m >= 10 && n >= 10 {
      assert s[..|s| - 1] == NatText(m / 10) && t[..|t| - 1] == NatText(n / 10);
      NatTextInjective(m / 10, n / 10);
    }
  }

  lemma IntTextInjective(m: int, n: int)
    requires IntText(m) == IntText(n)
    ensures m == n
  {
    var s, t := IntText(m), IntText(n);
    assert (m < 0) == (s[0] == '-') by { if m >= 0 { assert s[0] in NatText(m); } }
    assert (n < 0) == (t[0] == '-') by { if n >= 0 { assert t[0] in NatText(n); } }
    if m < 0 {
      assert s[1..] == NatText(-m) && t[1..] == NatText(-n);
      NatTextInjective(-m, -n);
    } else {
      NatTextInjective(m, n);
    }
  }

  /** Two texts cut at a separator neither head contains are equal part by part. */
  lemma {:induction false} CutAtFirst(s: string, t: string, s': string, t': string, sep: char)
    requires s + [sep] + t == s' + [sep] + t'
    requires sep !in s && sep !in s'
    ensures s == s' && t == t'
  {
    var whole := s + [sep] + t;
    assert whole[|s|] == sep && whole[|s'|] == sep;
    assert forall i :: 0 <= i < |s| ==> whole[i] == s[i] != sep;
    assert forall i :: 0 <= i < |s'| ==> whole[i] == s'[i] != sep;
    assert |s| == |s'|;
    assert whole[..|s|] == s && whole[..|s|] == s';
    assert whole[|s| + 1..] == t && whole[|s| + 1..] == t';
  }

  /** The mirror image: neither tail contains the separator. */
  lemma CutAtLast(s: string, t: string, s': string, t': string, sep: char)
    requires s + [sep] + t == s' + [sep] + t'
    requires sep !in t && sep !in t'
    ensures s == s' && t == t'
  {
    var whole := s + [sep] + t;
    assert whole[|s|] == sep && whole[|s'|] == sep;
    assert forall i :: |s| < i < |whole| ==> whole[i] == t[i - |s| - 1] != sep;
    assert forall i :: |s'| < i < |whole| ==> whole[i] == t'[i - |s'| - 1] != sep;
    assert |s| == |s'|;
    assert whole[..|s|] == s && whole[..|s|] == s';
    assert whole[|s| + 1..] == t && whole[|s| + 1..] == t';
  }

  // ---- Read back ---------------------------------------------------------------------

  /** Common text up to some place where `a` ends or has the smaller character. */
  ghost predicate ComesFirst(a: string, b: string) {
    exists k: nat :: k <= |a| && k < |b| && a[..k] == b[..k] && (k == |a| || a[k] < b[k])
  }

  lemma {:induction false} LexLessExactly(a: string, b: string)
    ensures LexLess(a, b) <==> ComesFirst(a, b)
  {
    if a != "" && b != "" && a[0] == b[0] {
      LexLessExactly(a[1..], b[1..]);
      if ComesFirst(a[1..], b[1..]) {
        var k: nat :| k <= |a[1..]| && k < |b[1..]| && a[1..][..k] == b[1..][..k]
                      && (k == |a[1..]| || a[1..][k] < b[1..][k]);
        assert a[..k + 1] == [a[0]] + a[1..][..k] && b[..k + 1] == [b[0]] + b[1..][..k];
      }
      if ComesFirst(a, b) { ComesFirstInside(a, b); }
    } else if b != "" {
      if LexLess(a, b) { assert a[..0] == b[..0]; }
      if ComesFirst(a, b) { StartsApart(a, b); }
    }
  }

  lemma StartsApart(a: string, b: string)
    requires ComesFirst(a, b)
    ensures a == "" || a[0] <= b[0]
  {
    var k: nat :| k <= |a| && k < |b| && a[..k] == b[..k] && (k == |a| || a[k] < b[k]);
    if k > 0 { assert a[0] == a[..k][0] == b[..k][0] == b[0]; }
  }

  lemma ComesFirstInside(a: string, b: string)
    requires a != "" && b != "" && a[0] == b[0] && ComesFirst(a, b)
    ensures ComesFirst(a[1..], b[1..])
  {
    var k: nat :| k <= |a| && k < |b| && a[..k] == b[..k] && (k == |a| || a[k] < b[k]);
    assert a[1..][..k - 1] == a[..k][1..] && b[1..][..k - 1] == b[..k][1..];
  }

  /** What decimal digits, read from the left, come to. */
  ghost function ValueOf(digits: string): int {
    if digits == "" then 0 else 10 * ValueOf(digits[..|digits| - 1]) + (digits[|digits| - 1] as int - '0' as int)
  }

  /** The text of a number reads back as that number and has no leading zero. */
  lemma {:induction false} NatReadsBack(n: nat)
    ensures ValueOf(NatText(n)) == n && (NatText(n)[0] == '0' ==> n == 0)
  {
    var s := NatText(n);
    if n < 10 {
      assert s[..0] == "";
    } else {
      NatReadsBack(n / 10);
      assert s[..|s| - 1] == NatText(n / 10) && s[0] == NatText(n / 10)[0];
    }
  }

  /** The text denotes the number: digits, behind a minus sign when it is negative. */
  ghost predicate Denotes(text: string, n: int) {
    exists digits: string :: (forall c :: c in digits ==> '0' <= c <= '9') && digits != ""
                             && (digits[0] == '0' ==> digits == "0")
                             && text == (if n < 0 then "-" + digits else digits)
                             && ValueOf(digits) == if n < 0 then -n else n
  }

  lemma IntReadsBack(n: int)
    ensures Denotes(IntText(n), n)
  {
    var m := if n < 0 then -n else n;
    NatReadsBack(m);
    assert m == 0 ==> NatText(m) == "0";
    assert IntText(n) == if n < 0 then "-" + NatText(m) else NatText(m);
  }
}

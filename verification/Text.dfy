/**
 Facts about strings that several components rely on: keys built by joining fields with a
 separator, decimal rendering of numbers, and the byte-wise order used by Go's string sort.
 */
module Text {

  /** A separator that occurs in neither prefix splits a joined string in one way only. */
  lemma SplitUnique(a: string, b: string, c: char, x: string, y: string)
    requires c !in a && c !in x
    requires a + [c] + b == x + [c] + y
    ensures a == x && b == y
  {
    var s := a + [c] + b;
    assert s[|a|] == c && s[|x|] == c;
    assert forall i :: 0 <= i < |a| ==> s[i] == a[i] && a[i] in a;
    assert forall i :: 0 <= i < |x| ==> s[i] == x[i] && x[i] in x;
    assert |a| == |x|;
    assert a == s[..|a|] == x;
    assert b == s[|a| + 1..] == y;
  }

  function Digit(d: nat): (c: char)
    requires d < 10
    ensures '0' <= c <= '9'
  {
    '0' + d as char
  }

  predicate IsDigit(c: char) {
    '0' <= c <= '9'
  }

  /** Decimal digits of a natural number, most significant first. */
  function Digits(n: nat): (s: string)
    ensures |s| > 0
    ensures forall c :: c in s ==> IsDigit(c)
  {
    if n < 10 then [Digit(n)] else Digits(n / 10) + [Digit(n % 10)]
  }

  lemma {:induction false} DigitsInjective(m: nat, n: nat)
    requires Digits(m) == Digits(n)
    ensures m == n
  {
    var s, t := Digits(m), Digits(n);
    assert s[|s| - 1] == Digit(m % 10);
    assert t[|t| - 1] == Digit(n % 10);
    assert m % 10 == n % 10;
    if m >= 10 && n >= 10 {
      assert s[..|s| - 1] == Digits(m / 10);
      assert t[..|t| - 1] == Digits(n / 10);
      DigitsInjective(m / 10, n / 10);
    }
  }

  /** strconv.Itoa */
  function Itoa(i: int): string {
    if i < 0 then "-" + Digits(-i) else Digits(i)
  }

  lemma ItoaInjective(i: int, j: int)
    requires Itoa(i) == Itoa(j)
    ensures i == j
  {
    ItoaSign(i);
    ItoaSign(j);
    if i < 0 {
      assert Itoa(i)[1..] == Digits(-i) && Itoa(j)[1..] == Digits(-j);
      DigitsInjective(-i, -j);
    } else {
      DigitsInjective(i, j);
    }
  }

  lemma ItoaSign(i: int)
    ensures Itoa(i) != [] && (Itoa(i)[0] == '-' <==> i < 0)
  {
    if i >= 0 {
      assert Itoa(i)[0] in Digits(i);
    }
  }

  lemma ItoaNoSlash(i: int)
    ensures '/' !in Itoa(i) && |Itoa(i)| > 0
  {
  }

  /** Go's order on strings: compare the first differing character; a prefix comes first. */
  predicate LexLe(a: string, b: string) {
    a == [] || (b != [] && (a[0] < b[0] || (a[0] == b[0] && LexLe(a[1..], b[1..]))))
  }

  /** A prefix comes first; else the first difference decides. */
  lemma {:induction false} LexMeans(a: string, b: string)
    ensures LexLe(a, b) <==> Precedes(a, b)
    decreases |a|
  {
    if a != [] && b != [] {
      if a[0] == b[0] {
        LexMeans(a[1..], b[1..]);
        PrecedesStep(a, b);
      } else {
        assert forall i :: i > 0 && Agree(a, b, i) ==> a[0] == b[0];
        assert Agree(a, b, 0);
      }
    }
  }

  ghost predicate Agree(a: string, b: string, n: int) {
    0 <= n <= |a| && n <= |b| && forall k :: 0 <= k < n ==> a[k] == b[k]
  }

  ghost predicate Precedes(a: string, b: string) {
    Agree(a, b, |a|) || exists i :: Agree(a, b, i) && i < |a| && i < |b| && a[i] < b[i]
  }

  lemma AgreeStep(a: string, b: string, n: int)
    requires a != [] && b != [] && a[0] == b[0] && n >= 0
    ensures Agree(a, b, n + 1) <==> Agree(a[1..], b[1..], n)
  {
    if Agree(a[1..], b[1..], n) {
      assert forall k :: 0 < k < n + 1 ==> a[k] == a[1..][k - 1] && b[k] == b[1..][k - 1];
    }
  }

  lemma PrecedesStep(a: string, b: string)
    requires a != [] && b != [] && a[0] == b[0]
    ensures Precedes(a, b) <==> Precedes(a[1..], b[1..])
  {
    AgreeStep(a, b, |a| - 1);
    hide Agree;
    if i :| Agree(a, b, i) && 0 <= i < |a| && i < |b| && a[i] < b[i] {
      AgreeStep(a, b, i - 1);
    }
    if i :| Agree(a[1..], b[1..], i) && 0 <= i < |a| - 1 && i < |b| - 1 && a[1..][i] < b[1..][i] {
      AgreeStep(a, b, i);
      assert a[i + 1] < b[i + 1];
    }
    assert forall i :: Agree(a, b, i) ==> i >= 0 by { AgreeBounds(a, b); }
    AgreeBounds(a[1..], b[1..]);
  }

  lemma AgreeBounds(a: string, b: string)
    ensures forall n :: Agree(a, b, n) ==> 0 <= n <= |a| && n <= |b|
  {
  }

  lemma {:induction a, b} LexTotal(a: string, b: string)
    ensures LexLe(a, b) || LexLe(b, a)
  {
  }

  lemma {:induction false} LexAntisymmetric(a: string, b: string)
    requires LexLe(a, b) && LexLe(b, a)
    ensures a == b
  {
    if a != [] {
      LexAntisymmetric(a[1..], b[1..]);
      assert a == [a[0]] + a[1..] && b == [b[0]] + b[1..];
    }
  }

  lemma {:induction false} LexTransitive(a: string, b: string, c: string)
    requires LexLe(a, b) && LexLe(b, c)
    ensures LexLe(a, c)
  {
    if a != [] && a[0] == b[0] == c[0] {
      LexTransitive(a[1..], b[1..], c[1..]);
    }
  }

  predicate Sorted(s: seq<string>) {
    forall i, j :: 0 <= i < j < |s| ==> LexLe(s[i], s[j])
  }

  /** slices.Sort and sort.Strings by their documented behaviour: an ordered permutation. */
  function Sort(s: seq<string>): (r: seq<string>)
    ensures multiset(r) == multiset(s)
    ensures Sorted(r)
  {
    if s == [] then [] else
      assert s == [s[0]] + s[1..];
      Insert(s[0], Sort(s[1..]))
  }

  function Insert(x: string, s: seq<string>): (r: seq<string>)
    requires Sorted(s)
    ensures multiset(r) == multiset([x] + s)
    ensures Sorted(r)
  {
    if s == [] then [x]
    else if LexLe(x, s[0]) then
      InsertFront(x, s);
      [x] + s
    else
      LexTotal(x, s[0]);
      var t := Insert(x, s[1..]);
      assert s == [s[0]] + s[1..];
      assert [x] + s == [x] + [s[0]] + s[1..];
      InsertBack(x, s, t);
      [s[0]] + t
  }

  lemma InsertFront(x: string, s: seq<string>)
    requires Sorted(s) && s != [] && LexLe(x, s[0])
    ensures Sorted([x] + s)
  {
    forall j | 0 < j < |s| ensures LexLe(x, s[j]) {
      LexTransitive(x, s[0], s[j]);
    }
  }

  lemma InsertBack(x: string, s: seq<string>, t: seq<string>)
    requires Sorted(s) && s != [] && LexLe(s[0], x) && Sorted(t)
    requires multiset(t) == multiset([x] + s[1..])
    ensures Sorted([s[0]] + t)
  {
    forall j | 0 <= j < |t| ensures LexLe(s[0], t[j]) {
      assert t[j] in multiset(t);
      assert t[j] == x || t[j] in s[1..];
    }
  }

  /** A sorted sequence is determined by its elements: sorting forgets the listing order. */
  lemma {:induction false} SortedUnique(s: seq<string>, t: seq<string>)
    requires Sorted(s) && Sorted(t) && multiset(s) == multiset(t)
    ensures s == t
  {
    if s == [] {
      assert |multiset(t)| == 0;
    } else {
      HeadsAgree(s, t);
      assert s == [s[0]] + s[1..] && t == [t[0]] + t[1..];
      assert multiset(s[1..]) == multiset(s) - multiset{s[0]};
      assert multiset(t[1..]) == multiset(t) - multiset{t[0]};
      SortedUnique(s[1..], t[1..]);
    }
  }

  lemma HeadsAgree(s: seq<string>, t: seq<string>)
    requires Sorted(s) && Sorted(t) && multiset(s) == multiset(t) && s != []
    ensures t != [] && s[0] == t[0]
  {
    assert s[0] in multiset(s);
    assert s[0] in t;
    var i :| 0 <= i < |t| && t[i] == s[0];
    assert t[0] in multiset(t);
    assert t[0] in s;
    var j :| 0 <= j < |s| && s[j] == t[0];
    if i > 0 && j > 0 {
      assert LexLe(t[0], t[i]) && LexLe(s[0], s[j]);
      LexAntisymmetric(s[0], t[0]);
    }
  }
}

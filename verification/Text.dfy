/** Text the program builds identifiers from: decimal numbers, newline-joined
    fields, and the byte order that Go's `<` uses on strings. */
module Text {
  import Sets

  function Digit(d: nat): (c: char)
    requires d < 10
    ensures '0' <= c <= '9'
  {
    '0' + d as char
  }

  /** `strconv.Itoa` on a non-negative number. */
  function Digits(n: nat): string {
    if n < 10 then [Digit(n)] else Digits(n / 10) + [Digit(n % 10)]
  }

  /** `%d` */
  function Decimal(n: int): string {
    if n < 0 then "-" + Digits(-n) else Digits(n)
  }

  predicate IsDigits(s: string) {
    |s| > 0 && forall i :: 0 <= i < |s| ==> '0' <= s[i] <= '9'
  }

  function Value(s: string): (v: nat)
    requires IsDigits(s)
  {
    (if |s| == 1 then 0 else 10 * Value(s[..|s| - 1])) + (s[|s| - 1] - '0') as nat
  }

  lemma {:induction false} DigitsRoundTrip(n: nat)
    ensures IsDigits(Digits(n)) && Value(Digits(n)) == n
  {
    if n >= 10 {
      DigitsRoundTrip(n / 10);
      var s := Digits(n);
      assert s[..|s| - 1] == Digits(n / 10);
    }
  }

  /** Two numbers with the same decimal text are the same number. */
  lemma DecimalInjective(m: int, n: int)
    ensures Decimal(m) == Decimal(n) ==> m == n
  {
    DigitsRoundTrip(if m < 0 then -m else m);
    DigitsRoundTrip(if n < 0 then -n else n);
    assert (m < 0) == (Decimal(m)[0] == '-') && (n < 0) == (Decimal(n)[0] == '-');
    assert m < 0 ==> Decimal(m)[1..] == Digits(-m);
    assert n < 0 ==> Decimal(n)[1..] == Digits(-n);
  }

  /** A decimal text holds only digits and a minus sign. */
  lemma DecimalLacks(n: int, c: char)
    requires c != '-' && !('0' <= c <= '9')
    ensures c !in Decimal(n)
  {
    DigitsRoundTrip(if n < 0 then -n else n);
  }

  function TenTo(k: nat): nat {
    if k == 0 then 1 else 10 * TenTo(k - 1)
  }

  /** A number below 10^k has at most k digits. */
  lemma {:induction false} DigitsShort(n: nat, k: nat)
    requires k > 0 && n < TenTo(k)
    ensures |Digits(n)| <= k
  {
    if n >= 10 { DigitsShort(n / 10, k - 1); }
  }

  /** `strings.Join(fields, separator)` with a one-character separator. */
  function Join(fields: seq<string>, separator: char): string {
    if |fields| == 0 then ""
    else if |fields| == 1 then fields[0]
    else fields[0] + [separator] + Join(fields[1..], separator)
  }

  ghost predicate NoneContains(fields: seq<string>, c: char) {
    forall i :: 0 <= i < |fields| ==> c !in fields[i]
  }

  /** A text can be cut at the first separator in one way only. */
  lemma CutUnique(a: string, x: string, b: string, y: string, separator: char)
    requires separator !in a && separator !in b
    requires a + [separator] + x == b + [separator] + y
    ensures a == b && x == y
  {
    var s := a + [separator] + x;
    assert s[|a|] == separator && s[|b|] == separator;
    assert forall i :: 0 <= i < |a| ==> s[i] == a[i] && a[i] in a;
    assert forall i :: 0 <= i < |b| ==> s[i] == b[i] && b[i] in b;
    assert a == s[..|a|] == s[..|b|] == b;
    assert x == s[|a| + 1..] == s[|b| + 1..] == y;
  }

  lemma TailLacks(x: string, a: string, separator: char, i: nat)
    requires separator !in a && |x| < i <= |x| + |a|
    ensures (x + [separator] + a)[i] != separator
  {
    assert (x + [separator] + a)[i] == a[i - |x| - 1];
  }

  /** And at the last separator in one way only. */
  lemma LastCutUnique(x: string, a: string, y: string, b: string, separator: char)
    requires separator !in a && separator !in b
    requires x + [separator] + a == y + [separator] + b
    ensures x == y && a == b
  {
    var s := x + [separator] + a;
    assert s[|x|] == separator && s[|y|] == separator && |s| == |x| + 1 + |a| == |y| + 1 + |b|;
    forall i: nat | |x| < i < |s| ensures s[i] != separator { TailLacks(x, a, separator, i); }
    forall i: nat | |y| < i < |s| ensures s[i] != separator { TailLacks(y, b, separator, i); }
    assert x == s[..|x|] && y == s[..|y|];
    assert a == s[|x| + 1..] && b == s[|y| + 1..];
  }

  /** Joining fields that do not contain the separator loses nothing. */
  lemma {:induction false} JoinInjective(a: seq<string>, b: seq<string>, separator: char)
    requires |a| == |b|
    requires NoneContains(a, separator) && NoneContains(b, separator)
    requires Join(a, separator) == Join(b, separator)
    ensures a == b
  {
    if |a| > 1 {
      CutUnique(a[0], Join(a[1..], separator), b[0], Join(b[1..], separator), separator);
      JoinInjective(a[1..], b[1..], separator);
      assert a == [a[0]] + a[1..] && b == [b[0]] + b[1..];
    }
  }

  /** The order of Go's `<` on strings. */
  predicate Less(a: string, b: string) {
    |b| > 0 && (|a| == 0 || a[0] < b[0] || (a[0] == b[0] && Less(a[1..], b[1..])))
  }

  lemma {:induction false} LessIrreflexive(a: string)
    ensures !Less(a, a)
  {
    if |a| > 0 { LessIrreflexive(a[1..]); }
  }

  lemma {:induction false} LessTransitive(a: string, b: string, c: string)
    requires Less(a, b) && Less(b, c)
    ensures Less(a, c)
  {
    if |a| > 0 && a[0] == b[0] && b[0] == c[0] {
      LessTransitive(a[1..], b[1..], c[1..]);
    }
  }

  lemma {:induction false} LessAsymmetric(a: string, b: string)
    ensures !(Less(a, b) && Less(b, a))
  {
    if |a| > 0 && |b| > 0 { LessAsymmetric(a[1..], b[1..]); }
  }

  lemma {:induction false} LessTotal(a: string, b: string)
    ensures Less(a, b) || Less(b, a) || a == b
  {
    if |a| > 0 && |b| > 0 && a[0] == b[0] {
      LessTotal(a[1..], b[1..]);
      assert a == [a[0]] + a[1..] && b == [b[0]] + b[1..];
    }
  }

  /** Strictly ascending, as the code checks it: each against its predecessor. */
  ghost predicate Ascending(s: seq<string>) {
    forall i :: 0 <= i < |s| - 1 ==> Less(s[i], s[i + 1])
  }

  lemma {:induction false} AscendingOrder(s: seq<string>, i: nat, j: nat)
    requires Ascending(s) && i < j < |s|
    ensures Less(s[i], s[j]) && s[i] != s[j]
    decreases j - i
  {
    if i + 1 < j {
      AscendingOrder(s, i + 1, j);
      LessTransitive(s[i], s[i + 1], s[j]);
    }
    LessIrreflexive(s[i]);
  }

  lemma AscendingFirst(s: seq<string>, x: string)
    requires Ascending(s) && |s| > 0 && x in s
    ensures x == s[0] || Less(s[0], x)
  {
    var k :| 0 <= k < |s| && s[k] == x;
    if k > 0 { AscendingOrder(s, 0, k); }
  }

  /** A set of strings has one sorted listing, so sorting erases the order in
      which a Go map was walked. */
  lemma {:induction false} AscendingUnique(a: seq<string>, b: seq<string>)
    requires Ascending(a) && Ascending(b)
    requires forall x :: x in a <==> x in b
    ensures a == b
  {
    assert forall i :: 0 <= i < |a| ==> a[i] in b;
    assert forall i :: 0 <= i < |b| ==> b[i] in a;
    if |a| > 0 && |b| > 0 {
      AscendingFirst(a, b[0]);
      AscendingFirst(b, a[0]);
      LessAsymmetric(a[0], b[0]);
      var p, q := a[1..], b[1..];
      forall x ensures x in p <==> x in q {
        if x in p { AscendingTailLacks(a); assert x in b && x != b[0]; }
        if x in q { AscendingTailLacks(b); assert x in a && x != a[0]; }
      }
      assert Ascending(p) by {
        forall i | 0 <= i < |p| - 1 ensures Less(p[i], p[i + 1]) { assert Less(a[i + 1], a[i + 2]); }
      }
      assert Ascending(q) by {
        forall i | 0 <= i < |q| - 1 ensures Less(q[i], q[i + 1]) { assert Less(b[i + 1], b[i + 2]); }
      }
      AscendingUnique(p, q);
      assert a == [a[0]] + p && b == [b[0]] + q;
    }
  }

  lemma AscendingTailLacks(a: seq<string>)
    requires Ascending(a) && |a| > 0
    ensures a[0] !in a[1..]
  {
    forall i | 1 <= i < |a| ensures a[i] != a[0] {
      AscendingOrder(a, 0, i);
    }
  }

  /** The one sorted listing of a set. */
  ghost predicate IsListing(s: seq<string>, all: set<string>) {
    Ascending(s) && forall x :: x in s <==> x in all
  }

  lemma ListingUnique(a: seq<string>, b: seq<string>, all: set<string>)
    requires IsListing(a, all) && IsListing(b, all)
    ensures a == b
  {
    AscendingUnique(a, b);
  }

  function Insert(x: string, s: seq<string>): seq<string> {
    if s == [] || Less(x, s[0]) then [x] + s else [s[0]] + Insert(x, s[1..])
  }

  lemma {:induction false} InsertKeeps(x: string, s: seq<string>)
    requires Ascending(s) && x !in s
    ensures Ascending(Insert(x, s)) && forall y :: y in Insert(x, s) <==> y == x || y in s
  {
    if s != [] && !Less(x, s[0]) {
      var rest := s[1..];
      assert Ascending(rest) by {
        forall i | 0 <= i < |rest| - 1 ensures Less(rest[i], rest[i + 1]) { assert Less(s[i + 1], s[i + 2]); }
      }
      InsertKeeps(x, rest);
      LessTotal(x, s[0]);
      assert s == [s[0]] + rest;
      var r := Insert(x, rest);
      assert r[0] == x || (|rest| > 0 && r[0] == rest[0] == s[1]);
      assert Less(s[0], r[0]);
      assert forall i :: 0 < i < |r| ==> Less(r[i - 1], r[i]) by {
        forall i | 0 < i < |r| ensures Less(r[i - 1], r[i]) { var j := i - 1; assert Less(r[j], r[j + 1]); }
      }
    }
  }

  lemma {:induction false} ListingExists(all: set<string>) returns (s: seq<string>)
    ensures IsListing(s, all)
    decreases all
  {
    s := [];
    if all != {} {
      var x := Sets.Pick(all);
      var rest := ListingExists(all - {x});
      InsertKeeps(x, rest);
      s := Insert(x, rest);
    }
  }

  /** Collecting the keys of a Go map in any order and sorting them. */
  method SortKeys(all: set<string>) returns (s: seq<string>)
    ensures IsListing(s, all)
  {
    s := [];
    var remaining := all;
    while remaining != {}
      invariant remaining <= all && IsListing(s, all - remaining)
      decreases remaining
    {
      ghost var some := Sets.Pick(remaining);
      var x: string :| x in remaining;
      InsertKeeps(x, s);
      s := Insert(x, s);
      remaining := remaining - {x};
    }
  }
}

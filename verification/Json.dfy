/** How long the JSON text of a value is. Go writes `<`, `>` and `&` as six-byte
    escapes in every text it marshals here. */
module Json {
  import Text

  /** The bytes written for one byte of a string. */
  function EscapedByte(c: char): (n: nat)
    ensures 1 <= n <= 6
  {
    if c == '\"' || c == '\\' || c == 8 as char || c == 12 as char || c == '\n' || c == '\r' || c == '\t' then 2
    else if c < ' ' || c == '<' || c == '>' || c == '&' then 6
    else 1
  }

  /** The three bytes of U+2028 or U+2029, which are escaped together. */
  predicate StartsSeparator(s: string) {
    |s| >= 3 && s[0] == 0xe2 as char && s[1] == 0x80 as char && (s[2] == 0xa8 as char || s[2] == 0xa9 as char)
  }

  /** The bytes of a string between its quotes. */
  function Escaped(s: string): (n: nat)
    ensures |s| <= n <= 6 * |s|
  {
    if s == "" then 0
    else if StartsSeparator(s) then 6 + Escaped(s[3..])
    else EscapedByte(s[0]) + Escaped(s[1..])
  }

  function StringLength(s: string): nat {
    2 + Escaped(s)
  }

  function IntLength(n: int): nat {
    |Text.Decimal(n)|
  }

  /** The items of an array, each with the comma or bracket after it. */
  function ItemsLength<T>(items: seq<T>, length: T -> nat): nat {
    if items == [] then 0 else length(items[0]) + 1 + ItemsLength(items[1..], length)
  }

  lemma {:induction false} ItemsBounds<T>(items: seq<T>, length: T -> nat, low: nat, high: nat)
    requires forall x :: x in items ==> low <= length(x) <= high
    ensures |items| * (low + 1) <= ItemsLength(items, length) <= |items| * (high + 1)
  {
    if items != [] {
      ItemsBounds(items[1..], length, low, high);
      assert |items| * (low + 1) == (|items| - 1) * (low + 1) + (low + 1);
      assert |items| * (high + 1) == (|items| - 1) * (high + 1) + (high + 1);
    }
  }

  /** The text of a number of at most `k` digits. */
  lemma IntShort(n: nat, k: nat)
    requires k > 0 && n < Text.TenTo(k)
    ensures 1 <= IntLength(n) <= k
  {
    Text.DigitsShort(n, k);
  }

  lemma {:induction false} EscapedJoin(a: string, b: string)
    requires 0xe2 as char !in a
    ensures Escaped(a + b) == Escaped(a) + Escaped(b)
  {
    if a == "" {
      assert a + b == b;
    } else {
      assert (a + b)[0] == a[0] && (a + b)[1..] == a[1..] + b;
      EscapedJoin(a[1..], b);
    }
  }

  lemma {:induction false} EscapedSame(s: string, c: char)
    requires c != 0xe2 as char && forall i :: 0 <= i < |s| ==> s[i] == c
    ensures Escaped(s) == |s| * EscapedByte(c)
  {
    if s != "" {
      EscapedSame(s[1..], c);
      assert |s| * EscapedByte(c) == (|s| - 1) * EscapedByte(c) + EscapedByte(c);
    }
  }
}

/**
 Decimal and dotted-quad text, as Go's strconv and net.IP print them, and that no two numbers share
 a text.
 */
module Decimal {

  function Digit(d: nat): char
    requires d < 10
  {
    '0' + d as char
  }

  function Dec(n: nat): string {
    if n < 10 then [Digit(n)] else Dec(n / 10) + [Digit(n % 10)]
  }

  predicate IsDigits(s: string) {
    s != "" && forall i :: 0 <= i < |s| ==> '0' <= s[i] <= '9'
  }

  function Value(s: string): nat
    requires s == "" || IsDigits(s)
  {
    if s == "" then 0 else Value(s[..|s| - 1]) * 10 + (s[|s| - 1] - '0') as nat
  }

  lemma {:induction false} DecReadsBack(n: nat)
    ensures IsDigits(Dec(n)) && Value(Dec(n)) == n
  {
    if n >= 10 {
      DecReadsBack(n / 10);
      assert Dec(n)[..|Dec(n)| - 1] == Dec(n / 10);
    } else {
      assert Dec(n)[..0] == "";
    }
  }

  /** A text is cut at its first separator in one way only. */
  lemma CutOnce(a: string, b: string, sep: char, x: string, y: string)
    requires sep !in a && sep !in b
    requires a + [sep] + x == b + [sep] + y
    ensures a == b && x == y
  {
    var t := a + [sep] + x;
    assert forall i :: 0 <= i < |a| ==> t[i] == a[i];
    assert forall i :: 0 <= i < |b| ==> t[i] == b[i];
    assert t[|a|] == sep && t[|b|] == sep;
    assert t[..|a|] == a && t[..|b|] == b && t[|a| + 1..] == x && t[|b| + 1..] == y;
  }

  const TWO16 := 0x1_0000
  const TWO32 := 0x1_0000_0000

  function Pow256(k: nat): nat {
    if k == 0 then 1 else 256 * Pow256(k - 1)
  }

  /** The last n bytes of x, most significant first. */
  function BigEndian(x: nat, n: nat): (r: seq<nat>)
    ensures |r| == n
  {
    if n == 0 then [] else BigEndian(x / 256, n - 1) + [x % 256]
  }

  lemma {:induction false} BigEndianIsInjective(x: nat, y: nat, n: nat)
    requires x < Pow256(n) && y < Pow256(n) && BigEndian(x, n) == BigEndian(y, n)
    ensures x == y
  {
    if n > 0 {
      var a, b := BigEndian(x, n), BigEndian(y, n);
      assert a[..n - 1] == BigEndian(x / 256, n - 1) && b[..n - 1] == BigEndian(y / 256, n - 1);
      assert a[n - 1] == x % 256 && b[n - 1] == y % 256;
      BigEndianIsInjective(x / 256, y / 256, n - 1);
    }
  }

  /** Decimal numbers with dots between them. */
  function Join(numbers: seq<nat>): string {
    if numbers == [] then ""
    else if |numbers| == 1 then Dec(numbers[0])
    else Dec(numbers[0]) + "." + Join(numbers[1..])
  }

  function Dotted(x: nat): string {
    Join(BigEndian(x, 4))
  }

  lemma DecHasNo(n: nat, c: char)
    requires c < '0' || c > '9'
    ensures c !in Dec(n)
  {
    DecReadsBack(n);
  }

  lemma {:induction false} JoinIsInjective(a: seq<nat>, b: seq<nat>)
    requires |a| == |b| && Join(a) == Join(b)
    ensures a == b
  {
    if a != [] {
      DecReadsBack(a[0]);
      DecReadsBack(b[0]);
      if |a| > 1 {
        DecHasNo(a[0], '.');
        DecHasNo(b[0], '.');
        CutOnce(Dec(a[0]), Dec(b[0]), '.', Join(a[1..]), Join(b[1..]));
        JoinIsInjective(a[1..], b[1..]);
      }
    }
  }

  lemma DottedIsInjective(x: nat, y: nat)
    requires x < TWO32 && y < TWO32 && Dotted(x) == Dotted(y)
    ensures x == y
  {
    JoinIsInjective(BigEndian(x, 4), BigEndian(y, 4));
    assert Pow256(4) == TWO32;
    BigEndianIsInjective(x, y, 4);
  }

  lemma {:induction false} JoinHasNo(numbers: seq<nat>, c: char)
    requires (c < '0' || c > '9') && c != '.'
    ensures c !in Join(numbers)
  {
    if numbers != [] {
      DecHasNo(numbers[0], c);
      JoinHasNo(numbers[1..], c);
    }
  }

  lemma DottedHasNoSlash(x: nat)
    ensures '/' !in Dotted(x)
  {
    JoinHasNo(BigEndian(x, 4), '/');
  }
}

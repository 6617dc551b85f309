/** Integer-to-text conversion as the calculator uses it: Number.prototype.toString
    on non-negative integers, String.prototype.padStart, and a reader that splits a
    displayed time at its colons and reads each field back as a number. */
module Text {

  predicate IsDigit(c: char) {
    '0' <= c <= '9'
  }

  predicate AllDigits(s: string) {
    forall i :: 0 <= i < |s| ==> IsDigit(s[i])
  }

  /** A non-empty run of digits with no leading zero, as toString writes an integer. */
  predicate Canonical(s: string) {
    |s| >= 1 && AllDigits(s) && (|s| == 1 || s[0] != '0')
  }

  function DigitValue(c: char): int {
    c as int - '0' as int
  }

  function DigitChar(d: int): (c: char)
    requires 0 <= d < 10
    ensures IsDigit(c) && DigitValue(c) == d
  {
    (d + '0' as int) as char
  }

  /** The decimal digits of n: (n).toString() for a non-negative integer n. */
  function Show(n: nat): (s: string)
    ensures Canonical(s)
    ensures |s| == 1 <==> n < 10
    ensures s[0] == '0' <==> n == 0
  {
    if n < 10 then [DigitChar(n)] else Show(n / 10) + [DigitChar(n % 10)]
  }

  /** The number a string of decimal digits denotes, leading zeros allowed. */
  function Value(s: string): int
  {
    if s == [] then 0 else Value(s[..|s| - 1]) * 10 + DigitValue(s[|s| - 1])
  }

  /** Show is inverted by Value. */
  lemma {:induction false} ValueOfShow(n: nat)
    ensures Value(Show(n)) == n
  {
    var s := Show(n);
    if n < 10 {
      assert s[..|s| - 1] == [];
    } else {
      assert s[..|s| - 1] == Show(n / 10);
      ValueOfShow(n / 10);
    }
  }

  /** s.padStart(width, fill). */
  function PadStart(s: string, width: nat, fill: char): (r: string)
    ensures |s| >= width ==> r == s
    ensures |s| < width ==> |r| == width && r[width - |s|..] == s
    ensures forall i :: 0 <= i < |r| - |s| ==> r[i] == fill
  {
    if |s| >= width then s else seq(width - |s|, _ => fill) + s
  }

  /** n.toString().padStart(2, '0'). */
  function Pad2(n: nat): (r: string)
    ensures n < 10 ==> r == ['0'] + Show(n)
    ensures n >= 10 ==> r == Show(n)
    ensures AllDigits(r)
    ensures n < 100 ==> |r| == 2
  {
    assert 10 <= n < 100 ==> |Show(n / 10)| == 1;
    PadStart(Show(n), 2, '0')
  }

  /** For n below 100, Pad2 writes exactly two digits and they denote n. */
  lemma Pad2Digits(n: nat)
    requires n < 100
    ensures |Pad2(n)| == 2 && AllDigits(Pad2(n)) && Value(Pad2(n)) == n
  {
    var p := Pad2(n);
    if n < 10 {
      assert p == ['0', DigitChar(n)];
      assert p[..1] == ['0'] && ['0'][..0] == [];
    } else {
      assert |Show(n / 10)| == 1;
      ValueOfShow(n);
    }
  }

  /** The two characters Pad2 writes for n below 100: its tens and units digit. */
  lemma Pad2Of(n: nat)
    requires n < 100
    ensures Pad2(n) == [DigitChar(n / 10), DigitChar(n % 10)]
  {
    if n >= 10 {
      assert Show(n / 10) == [DigitChar(n / 10)];
    }
  }

  lemma DigitsHaveNo(s: string, c: char)
    requires AllDigits(s) && !IsDigit(c)
    ensures c !in s
  {
  }

  /** The index of the first occurrence of c in s. */
  function IndexOf(s: string, c: char): (i: nat)
    requires c in s
    ensures i < |s| && s[i] == c && c !in s[..i]
  {
    if s[0] == c then 0
    else
      var j := IndexOf(s[1..], c);
      assert s[..j + 1] == [s[0]] + s[1..][..j];
      j + 1
  }

  /** s.split(sep). */
  function Fields(s: string, sep: char): (r: seq<string>)
    ensures |r| >= 1
    decreases |s|
  {
    if sep !in s then [s]
    else
      var i := IndexOf(s, sep);
      [s[..i]] + Fields(s[i + 1..], sep)
  }

  /** Splitting a + sep + b where a holds no separator yields a, then the fields of b. */
  lemma FieldsCons(a: string, sep: char, b: string)
    requires sep !in a
    ensures Fields(a + [sep] + b, sep) == [a] + Fields(b, sep)
  {
    var s := a + [sep] + b;
    assert s[|a|] == sep;
    var i := IndexOf(s, sep);
    assert i == |a|;
    assert s[..i] == a;
    assert s[i + 1..] == b;
  }

  /** Two digit strings joined by a colon split back into the two. */
  lemma ColonJoin2(a: string, b: string)
    requires AllDigits(a) && AllDigits(b)
    ensures Fields(a + ":" + b, ':') == [a, b]
  {
    DigitsHaveNo(a, ':');
    DigitsHaveNo(b, ':');
    FieldsCons(a, ':', b);
  }

  /** Three digit strings joined by colons split back into the three. */
  lemma ColonJoin3(a: string, b: string, c: string)
    requires AllDigits(a) && AllDigits(b) && AllDigits(c)
    ensures Fields(a + ":" + b + ":" + c, ':') == [a, b, c]
  {
    var tail := b + ":" + c;
    assert a + ":" + b + ":" + c == a + [':'] + tail;
    DigitsHaveNo(a, ':');
    FieldsCons(a, ':', tail);
    ColonJoin2(b, c);
  }

  function Values(f: seq<string>): (v: seq<int>)
    ensures |v| == |f|
  {
    if f == [] then [] else [Value(f[0])] + Values(f[1..])
  }

  lemma ValuesOfTwo(f: seq<string>)
    requires |f| == 2
    ensures Values(f) == [Value(f[0]), Value(f[1])]
  {
    assert f[1..][1..] == [];
  }

  lemma ValuesOfThree(f: seq<string>)
    requires |f| == 3
    ensures Values(f) == [Value(f[0]), Value(f[1]), Value(f[2])]
  {
    ValuesOfTwo(f[1..]);
  }

  /** The numbers a reader sees in a colon-separated display such as "1:05:09". */
  function Reading(s: string): seq<int> {
    Values(Fields(s, ':'))
  }
}

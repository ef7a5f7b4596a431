/** Java's `String.compareTo`, written out. A Java string is a sequence of
    UTF-16 code units, whereas a Dafny `char` is a Unicode scalar value, so
    the comparison runs over the UTF-16 encoding of each string: the
    difference of the first differing units, or the difference of the unit
    counts when one string is a prefix of the other. */
module JavaStrings {

  /** The UTF-16 code units of one scalar value: the value itself below
      0x10000, otherwise a high surrogate followed by a low surrogate. */
  function Utf16Char(c: char): (r: seq<int>)
    ensures |r| == 1 <==> (c as int) < 0x10000
    ensures |r| == 1 || |r| == 2
    ensures |r| == 1 ==> r[0] == c as int && !(0xD800 <= r[0] < 0xE000)
    ensures |r| == 2 ==> 0xD800 <= r[0] < 0xDC00 <= r[1] < 0xE000
    ensures forall i :: 0 <= i < |r| ==> 0 <= r[i] < 0x10000
  {
    var n := c as int;
    if n < 0x10000 then [n]
    else [0xD800 + (n - 0x10000) / 0x400, 0xDC00 + (n - 0x10000) % 0x400]
  }

  /** The UTF-16 code units of a string, as Java stores them. */
  function Utf16(s: string): (r: seq<int>)
    ensures |s| <= |r| <= 2 * |s|
  {
    if s == [] then [] else Utf16Char(s[0]) + Utf16(s[1..])
  }

  /** Distinct scalar values have distinct encodings. */
  lemma Utf16CharInjective(c: char, d: char)
    requires Utf16Char(c) == Utf16Char(d)
    ensures c == d
  {
    var n, m := c as int, d as int;
    if n >= 0x10000 && m >= 0x10000 {
      var v, w := n - 0x10000, m - 0x10000;
      assert v / 0x400 == w / 0x400 && v % 0x400 == w % 0x400;
      assert v == 0x400 * (v / 0x400) + v % 0x400;
      assert w == 0x400 * (w / 0x400) + w % 0x400;
    }
    assert n == m;
  }

  /** The encoding loses nothing: distinct strings have distinct unit
      sequences. */
  lemma {:induction false} Utf16Injective(a: string, b: string)
    requires Utf16(a) == Utf16(b)
    ensures a == b
    decreases |a|
  {
    if a != [] && b != [] {
      var ua, ub := Utf16Char(a[0]), Utf16Char(b[0]);
      assert Utf16(a) == ua + Utf16(a[1..]) && Utf16(b) == ub + Utf16(b[1..]);
      assert ua[0] == Utf16(a)[0] == Utf16(b)[0] == ub[0];
      assert |ua| == |ub|;
      assert ua == Utf16(a)[..|ua|] == Utf16(b)[..|ub|] == ub;
      Utf16CharInjective(a[0], b[0]);
      assert Utf16(a[1..]) == Utf16(a)[|ua|..] == Utf16(b)[|ub|..] == Utf16(b[1..]);
      Utf16Injective(a[1..], b[1..]);
      assert a == [a[0]] + a[1..] && b == [b[0]] + b[1..];
    }
  }

  /** The comparison of two unit sequences. */
  function CompareUnits(a: seq<int>, b: seq<int>): int
    decreases |a|
  {
    if a == [] || b == [] then |a| - |b|
    else if a[0] != b[0] then a[0] - b[0]
    else CompareUnits(a[1..], b[1..])
  }

  function CompareTo(a: string, b: string): int {
    CompareUnits(Utf16(a), Utf16(b))
  }

  lemma {:induction false} CompareUnitsZeroIff(a: seq<int>, b: seq<int>)
    ensures CompareUnits(a, b) == 0 <==> a == b
    decreases |a|
  {
    if a != [] && b != [] && a[0] == b[0] {
      CompareUnitsZeroIff(a[1..], b[1..]);
      assert a == [a[0]] + a[1..] && b == [b[0]] + b[1..];
    }
  }

  lemma {:induction false} CompareUnitsAntisymmetric(a: seq<int>, b: seq<int>)
    ensures CompareUnits(b, a) == -CompareUnits(a, b)
    decreases |a|
  {
    if a != [] && b != [] && a[0] == b[0] {
      CompareUnitsAntisymmetric(a[1..], b[1..]);
    }
  }

  lemma {:induction false} CompareUnitsTransitive(a: seq<int>, b: seq<int>, c: seq<int>)
    requires CompareUnits(a, b) < 0 && CompareUnits(b, c) < 0
    ensures CompareUnits(a, c) < 0
    decreases |a|
  {
    if a != [] && b != [] && c != [] && a[0] == b[0] && b[0] == c[0] {
      CompareUnitsTransitive(a[1..], b[1..], c[1..]);
    }
  }

  /** `compareTo` answers 0 exactly on equal strings. */
  lemma CompareToZeroIff(a: string, b: string)
    ensures CompareTo(a, b) == 0 <==> a == b
  {
    CompareUnitsZeroIff(Utf16(a), Utf16(b));
    if Utf16(a) == Utf16(b) {
      Utf16Injective(a, b);
    }
  }

  /** Swapping the arguments negates the answer. */
  lemma CompareToAntisymmetric(a: string, b: string)
    ensures CompareTo(b, a) == -CompareTo(a, b)
  {
    CompareUnitsAntisymmetric(Utf16(a), Utf16(b));
  }

  /** "Strictly before" is transitive. */
  lemma CompareToTransitive(a: string, b: string, c: string)
    requires CompareTo(a, b) < 0 && CompareTo(b, c) < 0
    ensures CompareTo(a, c) < 0
  {
    CompareUnitsTransitive(Utf16(a), Utf16(b), Utf16(c));
  }

  /** Java orders by code unit, not by code point: U+FFFF comes after
      U+10000, whose first unit is the high surrogate 0xD800. */
  lemma SupplementaryAfterBmp()
    ensures CompareTo("\U{FFFF}", "\U{10000}") == 0xFFFF - 0xD800
  {
    assert Utf16("\U{FFFF}") == [0xFFFF];
    assert Utf16("\U{10000}") == [0xD800, 0xDC00];
  }
}

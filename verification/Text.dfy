/** The string building blocks of record ids: decimal numbers, zero padding, and the colon-to-underscore
    replacement that makes a subject safe inside an id. */
module Text {

  function Digit(d: nat): (c: char)
    requires d < 10
  {
    "0123456789"[d]
  }

  function DigitValue(c: char): (d: nat)
    ensures d < 10
  {
    if '0' <= c <= '9' then c as int - '0' as int else 0
  }

  function Decimal(n: nat): string {
    if n < 10 then [Digit(n)] else Decimal(n / 10) + [Digit(n % 10)]
  }

  // The number a digit string denotes.
  function Value(s: string): nat {
    if s == "" then 0 else 10 * Value(s[..|s| - 1]) + DigitValue(s[|s| - 1])
  }

  function Zeros(n: nat): string { seq(n, _ => '0') }

  // Python's `{n:08d}`: at least eight digits, more when the number needs them.
  function Pad8(n: nat): string {
    var d := Decimal(n);
    if |d| < 8 then Zeros(8 - |d|) + d else d
  }

  predicate ColonFree(s: string) { ':' !in s }

  // `s.replace(":", "_")`
  function Underscored(s: string): (r: string)
    ensures |r| == |s|
    ensures forall i :: 0 <= i < |s| ==> r[i] == if s[i] == ':' then '_' else s[i]
    ensures ColonFree(r)
  {
    seq(|s|, i requires 0 <= i < |s| => if s[i] == ':' then '_' else s[i])
  }

  // What `str.strip` takes off: the white space of Unicode.
  predicate IsSpace(c: char) {
    var k := c as int;
    9 <= k <= 13 || 28 <= k <= 32 || k == 0x85 || k == 0xA0 || k == 0x1680 || 0x2000 <= k <= 0x200A
    || k == 0x2028 || k == 0x2029 || k == 0x202F || k == 0x205F || k == 0x3000
  }

  function Strip(s: string): string {
    if s != "" && IsSpace(s[0]) then Strip(s[1..])
    else if s != "" && IsSpace(s[|s| - 1]) then Strip(s[..|s| - 1])
    else s
  }

  // `str.lower` as far as it can produce ASCII text: the letters and the Kelvin sign.
  function LowerChar(c: char): char {
    if 'A' <= c <= 'Z' then (c as int + 32) as char else if c as int == 0x212A then 'k' else c
  }

  function Lower(s: string): (r: string)
    ensures |r| == |s| && forall i :: 0 <= i < |s| ==> r[i] == LowerChar(s[i])
  {
    seq(|s|, i requires 0 <= i < |s| => LowerChar(s[i]))
  }

  // Stripping takes off exactly the white space at both ends.
  lemma {:induction false} StripIs(left: string, middle: string, right: string)
    requires forall i :: 0 <= i < |left| ==> IsSpace(left[i])
    requires forall i :: 0 <= i < |right| ==> IsSpace(right[i])
    requires middle == "" || (!IsSpace(middle[0]) && !IsSpace(middle[|middle| - 1]))
    ensures Strip(left + middle + right) == middle
    decreases |left| + |right|
  {
    hide IsSpace;
    var s := left + middle + right;
    if left != "" {
      assert s[1..] == left[1..] + middle + right;
      StripIs(left[1..], middle, right);
    } else if right != "" {
      if middle == "" {
        assert s[1..] == "" + "" + right[1..];
        StripIs("", "", right[1..]);
      } else {
        assert s[..|s| - 1] == left + middle + right[..|right| - 1];
        StripIs(left, middle, right[..|right| - 1]);
      }
    } else {
      assert s == middle;
    }
  }

  lemma {:induction false} DecimalDenotes(n: nat)
    ensures Value(Decimal(n)) == n && ColonFree(Decimal(n)) && Decimal(n) != ""
  {
    if n < 10 {
      assert [Digit(n)][..0] == "";
    } else {
      DecimalDenotes(n / 10);
      var s := Decimal(n);
      assert s[..|s| - 1] == Decimal(n / 10);
    }
  }

  lemma {:induction false} LeadingZeros(k: nat, s: string)
    ensures Value(Zeros(k) + s) == Value(s)
    decreases k + |s|
  {
    var t := Zeros(k) + s;
    if s != "" {
      assert t[..|t| - 1] == Zeros(k) + s[..|s| - 1];
      LeadingZeros(k, s[..|s| - 1]);
    } else if k > 0 {
      assert t[..|t| - 1] == Zeros(k - 1) + "";
      LeadingZeros(k - 1, "");
    }
  }

  lemma PaddedDenotes(n: nat)
    ensures Value(Pad8(n)) == n && ColonFree(Pad8(n))
  {
    DecimalDenotes(n);
    if |Decimal(n)| < 8 { LeadingZeros(8 - |Decimal(n)|, Decimal(n)); }
  }

  // A number is written without leading zeros, and padded to exactly eight digits when it has fewer.
  lemma {:induction false} DecimalStarts(n: nat)
    ensures n > 0 ==> Decimal(n)[0] != '0'
    ensures forall i :: 0 <= i < |Decimal(n)| ==> '0' <= Decimal(n)[i] <= '9'
  {
    if n >= 10 { DecimalStarts(n / 10); }
  }

  lemma PaddedLength(n: nat)
    ensures if |Decimal(n)| >= 8 then Pad8(n) == Decimal(n) else |Pad8(n)| == 8
  {
  }

  // Two texts that agree up to their first colon have equal parts on both sides of it.
  lemma SplitAtColon(a: string, rest: string, b: string, rest': string)
    requires ColonFree(a) && ColonFree(b)
    requires a + ":" + rest == b + ":" + rest'
    ensures a == b && rest == rest'
  {
    var s, t := a + ":" + rest, b + ":" + rest';
    assert s[|a|] == ':' && t[|b|] == ':';
    assert forall i :: 0 <= i < |a| ==> s[i] == a[i] && s[i] != ':';
    assert forall i :: 0 <= i < |b| ==> t[i] == b[i] && t[i] != ':';
    assert a == s[..|a|] && b == t[..|b|];
    assert rest == s[|a| + 1..] && rest' == t[|b| + 1..];
  }

  // And the same from the last colon.
  lemma SplitAtLastColon(a: string, x: string, b: string, y: string)
    requires ColonFree(x) && ColonFree(y) && a + ":" + x == b + ":" + y
    ensures a == b && x == y
  {
    var s, t := a + ":" + x, b + ":" + y;
    assert s[|a|] == ':' && t[|b|] == ':';
    assert forall i :: |a| < i < |s| ==> s[i] == x[i - |a| - 1] && s[i] != ':';
    assert forall i :: |b| < i < |t| ==> t[i] == y[i - |b| - 1] && t[i] != ':';
    assert a == s[..|a|] && b == t[..|b|];
    assert x == s[|a| + 1..] && y == t[|b| + 1..];
  }
}

/** Python's order on str: by code point, a proper prefix first. */
module TextOrder {

  predicate Less(a: string, b: string) {
    if b == "" then false
    else if a == "" then true
    else a[0] < b[0] || (a[0] == b[0] && Less(a[1..], b[1..]))
  }

  lemma {:induction false} LessIrreflexive(a: string)
    ensures !Less(a, a)
  {
    if a != "" { LessIrreflexive(a[1..]); }
  }

  lemma {:induction false} LessTransitive(a: string, b: string, c: string)
    requires Less(a, b) && Less(b, c)
    ensures Less(a, c)
  {
    if a != "" && a[0] == b[0] == c[0] { LessTransitive(a[1..], b[1..], c[1..]); }
  }

  lemma {:induction false} LessTotal(a: string, b: string)
    ensures Less(a, b) || a == b || Less(b, a)
  {
    if a != "" && b != "" && a[0] == b[0] {
      LessTotal(a[1..], b[1..]);
      assert a == [a[0]] + a[1..] && b == [b[0]] + b[1..];
    }
  }

  // The order is decided at the first difference; a text comes before every longer text that begins with it.
  lemma {:induction false} FirstDifference(common: string, a: string, b: string)
    requires a == "" || b == "" || a[0] != b[0]
    ensures Less(common + a, common + b) <==> b != "" && (a == "" || a[0] < b[0])
  {
    if common == "" {
      assert common + a == a && common + b == b;
    } else {
      assert (common + a)[1..] == common[1..] + a && (common + b)[1..] == common[1..] + b;
      FirstDifference(common[1..], a, b);
    }
  }
}

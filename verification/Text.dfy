/** The string operations the server takes from Go's standard library. Strings are
    sequences of code points; letter case is folded over ASCII. */
module Text {

  function LowerChar(c: char): (r: char)
    ensures r == '@' <==> c == '@'
  {
    if 'A' <= c <= 'Z' then (c as int + 32) as char else c
  }

  function Fold(s: string): (r: string)
    ensures |r| == |s|
    ensures forall i :: 0 <= i < |s| ==> r[i] == LowerChar(s[i])
  {
    seq(|s|, i requires 0 <= i < |s| => LowerChar(s[i]))
  }

  predicate EqualFold(a: string, b: string) {
    Fold(a) == Fold(b)
  }

  lemma FoldConcat(a: string, b: string)
    ensures Fold(a + b) == Fold(a) + Fold(b)
  {
    assert |Fold(a + b)| == |Fold(a) + Fold(b)|;
  }

  lemma FoldIdempotent(s: string)
    ensures Fold(Fold(s)) == Fold(s)
  {
    assert |Fold(Fold(s))| == |Fold(s)|;
  }

  lemma FoldKeepsAt(s: string)
    ensures '@' in Fold(s) <==> '@' in s
  {
    if '@' in s {
      var i :| 0 <= i < |s| && s[i] == '@';
      assert Fold(s)[i] == '@';
    }
    if '@' in Fold(s) {
      var i :| 0 <= i < |s| && Fold(s)[i] == '@';
      assert s[i] == '@';
    }
  }

  // ---- decimal numerals

  predicate IsDigit(c: char) {
    '0' <= c <= '9'
  }

  predicate AllDigits(s: string) {
    forall i :: 0 <= i < |s| ==> IsDigit(s[i])
  }

  /** Base-ten rendering of n without leading zeros. */
  function Decimal(n: nat): (r: string)
    ensures |r| > 0 && AllDigits(r)
  {
    if n < 10 then [(n + '0' as int) as char]
    else Decimal(n / 10) + [(n % 10 + '0' as int) as char]
  }

  /** The number a digit string stands for. */
  function Numeral(s: string): nat
    requires AllDigits(s)
  {
    if s == [] then 0
    else 10 * Numeral(s[..|s| - 1]) + (s[|s| - 1] as int - '0' as int)
  }

  lemma {:induction false} NumeralOfDecimal(n: nat)
    ensures Numeral(Decimal(n)) == n
  {
    if n < 10 {
      assert Decimal(n)[..0] == [];
    } else {
      NumeralOfDecimal(n / 10);
      assert Decimal(n)[..|Decimal(n)| - 1] == Decimal(n / 10);
    }
  }

  /** Left-pads with zeros up to the given width; longer numerals are kept whole. */
  function PadZeros(s: string, width: nat): (r: string)
    requires AllDigits(s)
    ensures AllDigits(r) && |r| >= |s|
    decreases width - |s|
  {
    if |s| >= width then s else PadZeros("0" + s, width)
  }

  lemma {:induction false} LeadingZero(s: string)
    requires AllDigits(s)
    ensures Numeral("0" + s) == Numeral(s)
  {
    var t := "0" + s;
    if s == [] {
      assert t[..0] == [];
    } else {
      LeadingZero(s[..|s| - 1]);
      assert t[..|t| - 1] == "0" + s[..|s| - 1];
    }
  }

  lemma {:induction false} NumeralOfPadded(s: string, width: nat)
    requires AllDigits(s)
    ensures Numeral(PadZeros(s, width)) == Numeral(s)
    decreases width - |s|
  {
    if |s| < width {
      NumeralOfPadded("0" + s, width);
      LeadingZero(s);
    }
  }

  // ---- searching and trimming

  /** Position of the last c, or -1. */
  function LastIndex(s: string, c: char): (r: int)
    ensures -1 <= r < |s|
    ensures r >= 0 ==> s[r] == c
    ensures forall i :: r < i < |s| ==> s[i] != c
  {
    if s == [] then -1
    else if s[|s| - 1] == c then |s| - 1
    else LastIndex(s[..|s| - 1], c)
  }

  lemma LastIndexAt(s: string, c: char, k: nat)
    requires k < |s| && s[k] == c
    requires forall i :: k < i < |s| ==> s[i] != c
    ensures LastIndex(s, c) == k
  {
  }

  /** Drops every leading character that is in the cut set. */
  function TrimLeft(s: string, cut: set<char>): (r: string)
    ensures r == [] || r[0] !in cut
    ensures |r| <= |s| && r == s[|s| - |r|..]
    ensures s == [] || s[0] !in cut ==> r == s
  {
    if s != [] && s[0] in cut then TrimLeft(s[1..], cut) else s
  }

  /** Drops every trailing character that is in the cut set. */
  function TrimRight(s: string, cut: set<char>): (r: string)
    ensures r == [] || r[|r| - 1] !in cut
    ensures r <= s
    ensures s == [] || s[|s| - 1] !in cut ==> r == s
  {
    if s != [] && s[|s| - 1] in cut then TrimRight(s[..|s| - 1], cut) else s
  }

  function Trim(s: string, cut: set<char>): string {
    TrimRight(TrimLeft(s, cut), cut)
  }

  lemma TrimUntouched(s: string, cut: set<char>)
    requires s == "" || (s[0] !in cut && s[|s| - 1] !in cut)
    ensures Trim(s, cut) == s
  {
  }

  lemma TrimIdempotent(s: string, cut: set<char>)
    ensures Trim(Trim(s, cut), cut) == Trim(s, cut)
  {
    var left := TrimLeft(s, cut);
    var t := TrimRight(left, cut);
    if t != [] {
      assert t[0] == left[0];
    }
  }
}

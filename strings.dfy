/**
 * The two string services the editor borrows from Qt: formatting a counter
 * with QString::arg, and QFileInfo::fileName, which keeps the last path
 * component. Paths use '/' as separator, as Qt's canonical paths do.
 */
module Strings {

  type Path = string

  predicate IsDigit(c: char) {
    '0' <= c <= '9'
  }

  predicate AllDigits(s: string) {
    forall i :: 0 <= i < |s| ==> IsDigit(s[i])
  }

  function DigitChar(d: nat): (c: char)
    requires d < 10
    ensures IsDigit(c)
  {
    (('0' as int) + d) as char
  }

  function DigitValue(c: char): (d: nat)
    requires IsDigit(c)
    ensures d < 10
    ensures DigitChar(d) == c
  {
    (c as int) - ('0' as int)
  }

  /** Decimal rendering of a non-negative number, without leading zeros (QString::arg on an int). */
  function NatToString(n: nat): (s: string)
    ensures |s| >= 1 && AllDigits(s)
    ensures |s| > 1 ==> s[0] != '0'
    decreases n
  {
    if n < 10 then [DigitChar(n)] else NatToString(n / 10) + [DigitChar(n % 10)]
  }

  /** Reads a string of decimal digits back as a number. */
  function ParseNat(s: string): nat
    requires AllDigits(s)
  {
    if s == [] then 0 else ParseNat(s[..|s| - 1]) * 10 + DigitValue(s[|s| - 1])
  }

  lemma {:induction false} ParseNatToString(n: nat)
    ensures ParseNat(NatToString(n)) == n
    decreases n
  {
    var s := NatToString(n);
    if n < 10 {
      assert s[..|s| - 1] == [];
    } else {
      ParseNatToString(n / 10);
      assert s[..|s| - 1] == NatToString(n / 10);
      assert DigitValue(s[|s| - 1]) == n % 10;
    }
  }

  /** Different numbers are rendered differently: a counter value never yields an earlier name. */
  lemma NatToStringInjective(m: nat, n: nat)
    requires m != n
    ensures NatToString(m) != NatToString(n)
  {
    ParseNatToString(m);
    ParseNatToString(n);
  }

  /**
   * QFileInfo(p).fileName(): the part of p after its last '/', or all of p
   * when p has no '/'.
   */
  function FileName(p: Path): (r: Path)
    ensures |r| <= |p|
  {
    if p == [] then []
    else if p[|p| - 1] == '/' then []
    else FileName(p[..|p| - 1]) + [p[|p| - 1]]
  }

  /** The file name is the longest suffix of p without '/'; a path without '/' is its own file name. */
  lemma {:induction false} FileNameShape(p: Path)
    ensures var r := FileName(p);
            '/' !in r
            && |r| <= |p| && r == p[|p| - |r|..]
            && (|r| < |p| ==> p[|p| - |r| - 1] == '/')
            && ('/' !in p ==> r == p)
  {
    if p != [] && p[|p| - 1] != '/' {
      var q := p[..|p| - 1];
      FileNameShape(q);
      assert '/' !in p ==> '/' !in q by {
        if '/' in q {
          var k :| 0 <= k < |q| && q[k] == '/';
          assert p[k] == '/';
        }
      }
    }
  }
}

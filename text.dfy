/** The string primitives of Python 2 that the ingestion code relies on:
    `str.strip()`, `str.lower()` and `str()` of an integer. */
module Text {

  /** The characters `str.strip()` removes: C-locale `isspace`. */
  predicate IsSpace(c: char) {
    c == ' ' || c == '\t' || c == '\n' || c == '\r' || c == '\U{B}' || c == '\U{C}'
  }

  /** `s` without its leading whitespace. */
  function StripStart(s: string): string {
    if s != [] && IsSpace(s[0]) then StripStart(s[1..]) else s
  }

  /** `s` without its trailing whitespace. */
  function StripEnd(s: string): string {
    if s != [] && IsSpace(s[|s| - 1]) then StripEnd(s[..|s| - 1]) else s
  }

  /** `s.strip()`. */
  function Strip(s: string): string {
    StripEnd(StripStart(s))
  }

  /** StripStart removes a whitespace prefix and stops at a non-space. */
  lemma {:induction false} StripStartAt(s: string) returns (i: nat)
    ensures i <= |s| && StripStart(s) == s[i..]
    ensures forall k :: 0 <= k < i ==> IsSpace(s[k])
    ensures i < |s| ==> !IsSpace(s[i])
  {
    if s != [] && IsSpace(s[0]) {
      var i' := StripStartAt(s[1..]);
      assert s[1..][i'..] == s[i' + 1..];
      i := i' + 1;
    } else {
      i := 0;
    }
  }

  /** StripEnd removes a whitespace suffix and stops at a non-space. */
  lemma {:induction false} StripEndAt(s: string) returns (j: nat)
    ensures j <= |s| && StripEnd(s) == s[..j]
    ensures forall k :: j <= k < |s| ==> IsSpace(s[k])
    ensures 0 < j ==> !IsSpace(s[j - 1])
  {
    if s != [] && IsSpace(s[|s| - 1]) {
      var t := s[..|s| - 1];
      j := StripEndAt(t);
      assert t[..j] == s[..j];
    } else {
      j := |s|;
    }
  }

  /** `strip()` keeps the slice `s[i..j]` between a whitespace prefix and a
      whitespace suffix; the slice neither starts nor ends with whitespace. */
  lemma StripAt(s: string) returns (i: nat, j: nat)
    ensures i <= j <= |s| && Strip(s) == s[i..j]
    ensures forall k :: 0 <= k < i ==> IsSpace(s[k])
    ensures forall k :: j <= k < |s| ==> IsSpace(s[k])
    ensures i < j ==> !IsSpace(s[i]) && !IsSpace(s[j - 1])
  {
    i := StripStartAt(s);
    var t := s[i..];
    var m := StripEndAt(t);
    j := i + m;
    assert t[..m] == s[i..j];
    forall k | j <= k < |s| ensures IsSpace(s[k]) {
      assert s[k] == t[k - i];
    }
    if i < j {
      assert s[j - 1] == t[m - 1];
    }
  }

  /** A line strips to nothing exactly when it is all whitespace. */
  lemma StripEmpty(s: string)
    ensures Strip(s) == [] <==> forall k :: 0 <= k < |s| ==> IsSpace(s[k])
  {
    var i, j := StripAt(s);
    if Strip(s) == [] {
      forall k | 0 <= k < |s| ensures IsSpace(s[k]) {
        if i <= k { assert j <= k; }
      }
    } else {
      assert !IsSpace(s[i]);
    }
  }

  /** `c.lower()` for one character of a byte string: ASCII letters only. */
  function LowerChar(c: char): (r: char)
    ensures 'A' <= c <= 'Z' ==> r as int == c as int + 32
    ensures !('A' <= c <= 'Z') ==> r == c
    ensures !('A' <= r <= 'Z')
  {
    if 'A' <= c <= 'Z' then (c as int + 32) as char else c
  }

  /** `s.lower()`. */
  function Lower(s: string): (r: string)
    ensures |r| == |s|
    ensures forall k :: 0 <= k < |s| ==> r[k] == LowerChar(s[k])
  {
    if s == [] then [] else [LowerChar(s[0])] + Lower(s[1..])
  }

  function Digit(d: nat): (c: char)
    requires d < 10
  {
    ('0' as int + d) as char
  }

  /** Decimal digits of `n`, most significant first, no leading zero. */
  function NatStr(n: nat): (s: string)
    ensures |s| >= 1
    ensures n >= 10 ==> |s| >= 2
    ensures s[0] != '-'
  {
    if n < 10 then [Digit(n)] else NatStr(n / 10) + [Digit(n % 10)]
  }

  /** `str(n)` for a Python integer. */
  function Str(n: int): (s: string)
  {
    if n < 0 then "-" + NatStr(-n) else NatStr(n)
  }

  lemma {:induction false} NatStrInjective(a: nat, b: nat)
    requires NatStr(a) == NatStr(b)
    ensures a == b
    decreases a
  {
    if a >= 10 && b >= 10 {
      var sa, sb := NatStr(a / 10), NatStr(b / 10);
      var s := NatStr(a);
      assert s == sa + [Digit(a % 10)] && s == sb + [Digit(b % 10)];
      assert sa == sb by {
        assert |sa| == |sb|;
        assert sa == s[..|s| - 1] && sb == s[..|s| - 1];
      }
      assert Digit(a % 10) == s[|s| - 1] == Digit(b % 10);
      NatStrInjective(a / 10, b / 10);
    } else if a < 10 && b < 10 {
      assert Digit(a) == NatStr(a)[0];
    }
  }

  /** Different integers have different decimal names. */
  lemma StrInjective(a: int, b: int)
    requires Str(a) == Str(b)
    ensures a == b
  {
    if a < 0 && b < 0 {
      var s := Str(a);
      assert NatStr(-a) == s[1..] && NatStr(-b) == s[1..];
      NatStrInjective(-a, -b);
    } else if a >= 0 && b >= 0 {
      NatStrInjective(a, b);
    }
  }
}

/**
 * The few Python `str` operations that the helpers rely on: `lower`,
 * `endswith`, `strip`, `join` and `str` of an integer, over strings as
 * sequences of characters.
 */
module PyStr {

  /** The characters Python's `str.isspace` accepts, which `str.strip()` removes. */
  predicate IsSpace(c: char)
  {
    var k := c as int;
    || (0x09 <= k <= 0x0D) || (0x1C <= k <= 0x20)
    || k == 0x85 || k == 0xA0 || k == 0x1680
    || (0x2000 <= k <= 0x200A)
    || k == 0x2028 || k == 0x2029 || k == 0x202F || k == 0x205F || k == 0x3000
  }

  /** Every character of `s` is whitespace (the empty string included). */
  predicate IsBlank(s: string)
  {
    forall i :: 0 <= i < |s| ==> IsSpace(s[i])
  }

  /** Concatenation of strings is associative. */
  lemma ConcatAssoc(x: string, y: string, z: string)
    ensures (x + y) + z == x + (y + z)
  {
  }

  /** A concatenation is whitespace only exactly when both halves are. */
  lemma BlankConcat(s: string, t: string)
    ensures IsBlank(s + t) <==> IsBlank(s) && IsBlank(t)
  {
    assert forall j :: 0 <= j < |s| ==> (s + t)[j] == s[j];
    assert forall j :: 0 <= j < |t| ==> (s + t)[|s| + j] == t[j];
  }

  /** `s.lstrip()`: drop leading whitespace. */
  function LStrip(s: string): (r: string)
    ensures |r| <= |s| && r == s[|s| - |r|..]
  {
    if |s| > 0 && IsSpace(s[0]) then LStrip(s[1..]) else s
  }

  /** `s.rstrip()`: drop trailing whitespace. */
  function RStrip(s: string): (r: string)
    ensures |r| <= |s| && r == s[..|r|]
  {
    if |s| > 0 && IsSpace(s[|s| - 1]) then RStrip(s[..|s| - 1]) else s
  }

  /** `s.strip()`: drop leading and trailing whitespace. */
  function Strip(s: string): string
  {
    RStrip(LStrip(s))
  }

  /** `lstrip` removes everything exactly from a whitespace-only string. */
  lemma {:induction false} LStripEmptyIffBlank(s: string)
    ensures |LStrip(s)| == 0 <==> IsBlank(s)
    decreases |s|
  {
    if |s| > 0 && IsSpace(s[0]) {
      LStripEmptyIffBlank(s[1..]);
      assert forall i :: 1 <= i < |s| ==> s[1..][i - 1] == s[i];
    }
  }

  /** `rstrip` removes everything exactly from a whitespace-only string. */
  lemma {:induction false} RStripEmptyIffBlank(s: string)
    ensures |RStrip(s)| == 0 <==> IsBlank(s)
    decreases |s|
  {
    if |s| > 0 && IsSpace(s[|s| - 1]) {
      RStripEmptyIffBlank(s[..|s| - 1]);
      assert forall i :: 0 <= i < |s| - 1 ==> s[..|s| - 1][i] == s[i];
    }
  }

  /** What `lstrip` leaves does not start with whitespace. */
  lemma {:induction false} LStripHead(s: string)
    ensures |LStrip(s)| > 0 ==> !IsSpace(LStrip(s)[0])
    decreases |s|
  {
    if |s| > 0 && IsSpace(s[0]) {
      LStripHead(s[1..]);
    }
  }

  /** `not s.strip()` holds exactly when `s` consists of whitespace only. */
  lemma StripEmptyIffBlank(s: string)
    ensures |Strip(s)| == 0 <==> IsBlank(s)
  {
    var l := LStrip(s);
    LStripEmptyIffBlank(s);
    LStripHead(s);
    RStripEmptyIffBlank(l);
  }

  /**
   * Python's `str.lower` restricted to ASCII letters: each character is kept
   * or is the upper-case form of its result, and no upper-case letter is left.
   */
  function Lower(s: string): (r: string)
    ensures |r| == |s|
    ensures forall i :: 0 <= i < |s| ==> SameIgnoringCase(s[i], r[i])
    ensures forall i :: 0 <= i < |r| ==> !('A' <= r[i] <= 'Z')
  {
    seq(|s|, i requires 0 <= i < |s| => if 'A' <= s[i] <= 'Z' then (s[i] as int + 32) as char else s[i])
  }

  /** Python's `s.endswith(suffix)`. */
  predicate EndsWith(s: string, suffix: string)
  {
    |suffix| <= |s| && s[|s| - |suffix|..] == suffix
  }

  /** `a` is `b`, or `b` is a lower-case ASCII letter and `a` its upper-case form. */
  predicate SameIgnoringCase(a: char, b: char)
  {
    a == b || ('a' <= b <= 'z' && a as int == b as int - 32)
  }

  /** `s` ends with `suffix` when upper-case ASCII letters of `s` are read as lower-case. */
  predicate EndsWithIgnoringCase(s: string, suffix: string)
  {
    |suffix| <= |s| &&
    forall i :: 0 <= i < |suffix| ==> SameIgnoringCase(s[|s| - |suffix| + i], suffix[i])
  }

  /** `s.lower().endswith(suffix)` is a case-insensitive suffix test for a suffix with no upper-case letter. */
  lemma LowerEndsWith(s: string, suffix: string)
    requires forall i :: 0 <= i < |suffix| ==> !('A' <= suffix[i] <= 'Z')
    ensures EndsWith(Lower(s), suffix) <==> EndsWithIgnoringCase(s, suffix)
  {
    var l := Lower(s);
    if |suffix| <= |s| {
      var k := |s| - |suffix|;
      if EndsWith(l, suffix) {
        forall i | 0 <= i < |suffix| ensures SameIgnoringCase(s[k + i], suffix[i]) {
          assert l[k..][i] == l[k + i];
        }
      }
      if EndsWithIgnoringCase(s, suffix) {
        assert forall i :: 0 <= i < |suffix| ==> l[k..][i] == l[k + i] == suffix[i];
      }
    }
  }

  /**
   * A string cannot end with two different suffixes of the same length, so a
   * name is never taken for both kinds of document.
   */
  lemma EndsWithExclusive(s: string, a: string, b: string)
    requires |a| == |b| && a != b
    ensures !(EndsWith(s, a) && EndsWith(s, b))
  {
  }

  /**
   * Python's `sep.join(parts)`, peeling off the last part: nothing for no
   * parts, the part itself for one, separators strictly between parts.
   */
  function Join(sep: string, parts: seq<string>): string
  {
    if |parts| == 0 then ""
    else if |parts| == 1 then parts[0]
    else Join(sep, parts[..|parts| - 1]) + sep + parts[|parts| - 1]
  }

  /** A reference reading of `join` that works from the front. */
  function JoinFront(sep: string, parts: seq<string>): string
  {
    if |parts| == 0 then ""
    else if |parts| == 1 then parts[0]
    else parts[0] + sep + JoinFront(sep, parts[1..])
  }

  /** Sum of the lengths of the parts. */
  function TotalLength(parts: seq<string>): nat
  {
    if |parts| == 0 then 0 else TotalLength(parts[..|parts| - 1]) + |parts[|parts| - 1]|
  }

  /** Joining two non-empty runs of parts puts one separator between their joins. */
  lemma {:induction false} JoinConcat(sep: string, a: seq<string>, b: seq<string>)
    requires a != [] && b != []
    ensures Join(sep, a + b) == Join(sep, a) + sep + Join(sep, b)
    decreases |b|
  {
    if |b| == 1 {
      assert (a + b)[..|a + b| - 1] == a;
    } else {
      var b' := b[..|b| - 1];
      assert (a + b)[..|a + b| - 1] == a + b';
      JoinConcat(sep, a, b');
    }
  }

  /** Both readings of `join` agree on every input. */
  lemma {:induction false} JoinMatchesJoinFront(sep: string, parts: seq<string>)
    ensures Join(sep, parts) == JoinFront(sep, parts)
    decreases |parts|
  {
    if |parts| > 1 {
      JoinMatchesJoinFront(sep, parts[1..]);
      JoinConcat(sep, [parts[0]], parts[1..]);
      assert [parts[0]] + parts[1..] == parts;
    }
  }

  /** The joined string is as long as its parts plus one separator per gap. */
  lemma {:induction false} JoinLength(sep: string, parts: seq<string>)
    requires parts != []
    ensures |Join(sep, parts)| == TotalLength(parts) + |sep| * (|parts| - 1)
    decreases |parts|
  {
    if |parts| > 1 {
      JoinLength(sep, parts[..|parts| - 1]);
      assert |sep| * (|parts| - 1) == |sep| * (|parts| - 2) + |sep|;
    } else {
      assert parts[..0] == [];
    }
  }

  /** Decimal digits of a natural number, most significant first, with no leading zero. */
  function NatToString(n: nat): (r: string)
    ensures r != [] && forall i :: 0 <= i < |r| ==> '0' <= r[i] <= '9'
    ensures r[0] == '0' <==> n == 0
  {
    var d := ['0' + (n % 10) as char];
    if n < 10 then d else NatToString(n / 10) + d
  }

  /** Python's `str(n)` for an integer: a minus sign for negatives, then the digits. */
  function IntToString(n: int): (r: string)
    ensures r != []
    ensures (r[0] == '-') <==> n < 0
  {
    if n < 0 then "-" + NatToString(-n) else NatToString(n)
  }

  /** The number a string of decimal digits denotes, most significant first. */
  function DigitsValue(s: string): int
  {
    if |s| == 0 then 0 else DigitsValue(s[..|s| - 1]) * 10 + (s[|s| - 1] as int - '0' as int)
  }

  /** The integer a decimal numeral with an optional minus sign denotes. */
  function IntValue(s: string): int
  {
    if |s| > 0 && s[0] == '-' then -DigitsValue(s[1..]) else DigitsValue(s)
  }

  /** Reading the digits of `n` back gives `n`. */
  lemma {:induction false} NatToStringValue(n: nat)
    ensures DigitsValue(NatToString(n)) == n
  {
    var d := ['0' + (n % 10) as char];
    if n >= 10 {
      var r := NatToString(n / 10) + d;
      assert r[..|r| - 1] == NatToString(n / 10);
      NatToStringValue(n / 10);
    }
  }

  /** Reading `str(n)` back gives `n`. */
  lemma IntToStringValue(n: int)
    ensures IntValue(IntToString(n)) == n
  {
    if n < 0 {
      var t := NatToString(-n);
      assert ("-" + t)[1..] == t;
      NatToStringValue(-n);
    } else {
      var t := NatToString(n);
      assert '0' <= t[0] <= '9';
      NatToStringValue(n);
    }
  }
}

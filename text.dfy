/**
 * String operations the scripts use: `startsWith`/`endsWith`, `includes`,
 * `replace` with a string pattern, `toLowerCase`, `join`, and decimal
 * rendering with zero padding (`String(n)`, date-fns `yyyy` and `MM`).
 */
module Text {
  import opened Wrappers

  predicate StartsWith(s: string, prefix: string)
  {
    |prefix| <= |s| && s[..|prefix|] == prefix
  }

  predicate EndsWith(s: string, suffix: string)
  {
    |suffix| <= |s| && s[|s| - |suffix|..] == suffix
  }

  /** `p` occurs in `s` at position `i`. */
  predicate OccursAt(s: string, p: string, i: nat)
  {
    i + |p| <= |s| && s[i..i + |p|] == p
  }

  /** The middle of a concatenation occurs in it right after the first part. */
  lemma InfixOccurs(a: string, b: string, c: string)
    ensures OccursAt(a + b + c, b, |a|)
  {
    assert (a + b + c)[|a|..|a| + |b|] == b;
  }

  /** An occurrence inside an occurrence. */
  lemma OccursWithin(s: string, p: string, q: string, i: nat, j: nat)
    requires OccursAt(s, p, i) && OccursAt(p, q, j)
    ensures OccursAt(s, q, i + j)
  {
    var w := s[i..i + |p|];
    assert w == p;
    forall k | 0 <= k < |q| ensures s[i + j + k] == q[k] {
      assert q[k] == p[j..j + |q|][k] == p[j + k] == w[j + k] == s[i + j + k];
    }
    assert s[i + j..i + j + |q|] == q;
  }

  /** `s.indexOf(p, from)`: the first position at or after `from` where `p` occurs. */
  function IndexOf(s: string, p: string, from: nat): (r: Option<nat>)
    ensures r.Some? ==> from <= r.value && OccursAt(s, p, r.value)
    ensures r.Some? ==> forall j :: from <= j < r.value ==> !OccursAt(s, p, j)
    ensures r.None? ==> forall j :: from <= j ==> !OccursAt(s, p, j)
    decreases |s| - from
  {
    if from + |p| > |s| then None
    else if s[from..from + |p|] == p then Some(from)
    else IndexOf(s, p, from + 1)
  }

  /** A separator that occurs in neither left part splits two equal joins at the same place. */
  lemma SplitAtSeparator(a1: string, b1: string, a2: string, b2: string, sep: char)
    requires forall j :: 0 <= j < |a1| ==> a1[j] != sep
    requires forall j :: 0 <= j < |a2| ==> a2[j] != sep
    requires a1 + [sep] + b1 == a2 + [sep] + b2
    ensures a1 == a2 && b1 == b2
  {
    var s := a1 + [sep] + b1;
    assert s[|a1|] == sep && (a2 + [sep] + b2)[|a2|] == sep;
    assert forall j :: 0 <= j < |a1| ==> s[j] == a1[j];
    assert forall j :: 0 <= j < |a2| ==> s[j] == a2[j];
    assert |a1| == |a2|;
    assert a1 == s[..|a1|] == a2;
    assert b1 == s[|a1| + 1..] == b2;
  }

  /** `s.includes(p)`. */
  predicate Contains(s: string, p: string)
  {
    IndexOf(s, p, 0).Some?
  }

  lemma ContainsIff(s: string, p: string)
    ensures Contains(s, p) <==> exists i: nat :: OccursAt(s, p, i)
  {
    if exists i: nat :: OccursAt(s, p, i) {
      var i: nat :| OccursAt(s, p, i);
      assert 0 <= i;
    }
  }

  /** `s.replace(p, r)` with a string pattern: only the first occurrence is replaced. */
  function ReplaceFirst(s: string, p: string, r: string): string
  {
    match IndexOf(s, p, 0)
    case None => s
    case Some(i) => s[..i] + r + s[i + |p|..]
  }

  /** Concatenation regrouped to the left. */
  lemma Regroup(a: string, b: string, c: string)
    ensures a + (b + c) == a + b + c
  {
  }

  /** Replacing a leading `p` by nothing gives back what follows it. */
  lemma {:induction false} ReplaceLeading(p: string, rest: string)
    ensures ReplaceFirst(p + rest, p, "") == rest
  {
    assert (p + rest)[0..|p|] == p;
  }

  predicate IsUpper(c: char)
  {
    'A' <= c <= 'Z'
  }

  function LowerChar(c: char): char
  {
    if IsUpper(c) then (c as int + 32) as char else c
  }

  /**
   * `s.toLowerCase()` on the ASCII letters: no upper-case letter is left,
   * exactly the upper-case letters change, and each becomes the letter 32
   * code points above it.
   */
  function ToLower(s: string): (r: string)
    ensures |r| == |s|
    ensures forall i :: 0 <= i < |s| ==> !IsUpper(r[i]) && (r[i] == s[i] <==> !IsUpper(s[i]))
    ensures forall i :: 0 <= i < |s| ==> IsUpper(s[i]) ==> r[i] as int == s[i] as int + 32
  {
    seq(|s|, i requires 0 <= i < |s| => LowerChar(s[i]))
  }

  /** Lower-casing twice is lower-casing once. */
  lemma ToLowerIdempotent(s: string)
    ensures ToLower(ToLower(s)) == ToLower(s)
  {
    var r := ToLower(s);
    assert forall i :: 0 <= i < |r| ==> ToLower(r)[i] == r[i];
  }

  /** `parts.join(sep)`. */
  function Join(parts: seq<string>, sep: string): string
  {
    if |parts| == 0 then ""
    else if |parts| == 1 then parts[0]
    else parts[0] + sep + Join(parts[1..], sep)
  }

  predicate IsDigit(c: char)
  {
    '0' <= c <= '9'
  }

  function DigitChar(d: nat): char
    requires d < 10
  {
    ('0' as int + d) as char
  }

  function Pow10(w: nat): nat
  {
    if w == 0 then 1 else 10 * Pow10(w - 1)
  }

  /**
   * The decimal digits of `n`, left-padded with '0' to at least `width`
   * characters (`String(n).padStart(width, '0')`).
   */
  function ZeroPad(n: nat, width: nat): (r: string)
    ensures |r| >= 1 && |r| >= width
    ensures forall i :: 0 <= i < |r| ==> IsDigit(r[i])
    decreases n + width
  {
    if n < 10 && width <= 1 then [DigitChar(n)]
    else ZeroPad(n / 10, if width == 0 then 0 else width - 1) + [DigitChar(n % 10)]
  }

  /** `String(n)` for a non-negative integer. */
  function NatToString(n: nat): string
  {
    ZeroPad(n, 1)
  }

  /** The number a string of decimal digits denotes (the inverse of ZeroPad). */
  function DigitsValue(s: string): nat
  {
    if s == [] then 0
    else
      var c := s[|s| - 1];
      DigitsValue(s[..|s| - 1]) * 10 + (if IsDigit(c) then c as int - '0' as int else 0)
  }

  lemma {:induction false} ZeroPadValue(n: nat, width: nat)
    ensures DigitsValue(ZeroPad(n, width)) == n
    decreases n + width
  {
    var r := ZeroPad(n, width);
    if n < 10 && width <= 1 {
      assert r == [DigitChar(n)];
      assert r[..0] == [];
    } else {
      var narrower := if width == 0 then 0 else width - 1;
      ZeroPadValue(n / 10, narrower);
      assert r[..|r| - 1] == ZeroPad(n / 10, narrower);
    }
  }

  /** A number below 10^width is rendered in exactly `width` digits. */
  lemma {:induction false} ZeroPadLength(n: nat, width: nat)
    requires 1 <= width && n < Pow10(width)
    ensures |ZeroPad(n, width)| == width
    decreases width
  {
    if n < 10 && width <= 1 {
    } else {
      ZeroPadLength(n / 10, width - 1);
    }
  }
}

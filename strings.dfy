/** String helpers with the semantics of the JavaScript string operations the
    plugins use: `startsWith`, `endsWith`, `includes`, `split` / `join` on a
    one-character separator, a global character replace, and the decimal
    rendering of a non-negative integer together with `Number` on a digit string. */
module Strings {

  predicate StartsWith(s: string, prefix: string) {
    |prefix| <= |s| && s[..|prefix|] == prefix
  }

  predicate EndsWith(s: string, suffix: string) {
    |suffix| <= |s| && s[|s| - |suffix|..] == suffix
  }

  /** `s.split(d)` for a one-character separator `d`: the pieces between the
      occurrences of `d`, in order; always at least one piece. */
  function Split(s: string, d: char): (parts: seq<string>)
    ensures |parts| >= 1
    ensures forall i :: 0 <= i < |parts| ==> d !in parts[i]
    decreases |s|
  {
    if |s| == 0 then [""]
    else
      var rest := Split(s[1..], d);
      if s[0] == d then [""] + rest
      else
        assert d !in rest[0];
        [[s[0]] + rest[0]] + rest[1..]
  }

  /** `parts.join(d)`. */
  function Join(parts: seq<string>, d: char): string
    decreases |parts|
  {
    if |parts| == 0 then ""
    else if |parts| == 1 then parts[0]
    else parts[0] + [d] + Join(parts[1..], d)
  }

  /** Joining the pieces of a split gives back the string. */
  lemma {:induction false} JoinSplit(s: string, d: char)
    ensures Join(Split(s, d), d) == s
    decreases |s|
  {
    if |s| > 0 {
      var rest := Split(s[1..], d);
      JoinSplit(s[1..], d);
      if s[0] == d {
        assert Split(s, d) == [""] + rest;
        assert s == [d] + s[1..];
      } else {
        var parts := Split(s, d);
        assert parts == [[s[0]] + rest[0]] + rest[1..];
        if |rest| == 1 {
          assert s == [s[0]] + s[1..];
        } else {
          assert parts[1..] == rest[1..];
          assert Join(rest, d) == rest[0] + [d] + Join(rest[1..], d);
          assert s == [s[0]] + s[1..];
        }
      }
    }
  }

  /** A string without the separator splits into itself alone; one with it
      splits into at least two pieces. */
  lemma {:induction false} SplitPieces(s: string, d: char)
    ensures d !in s ==> Split(s, d) == [s]
    ensures d in s ==> |Split(s, d)| >= 2
    decreases |s|
  {
    if |s| > 0 {
      SplitPieces(s[1..], d);
      if s[0] != d {
        assert d in s ==> d in s[1..];
        assert s == [s[0]] + s[1..];
      }
    }
  }

  /** Splitting `a + [d] + rest`, where `a` has no separator, yields `a` first. */
  lemma {:induction false} SplitAtFirst(a: string, d: char, rest: string)
    requires d !in a
    ensures Split(a + [d] + rest, d) == [a] + Split(rest, d)
    decreases |a|
  {
    if |a| == 0 {
      assert a + [d] + rest == [d] + rest;
      assert ([d] + rest)[1..] == rest;
    } else {
      var s := a + [d] + rest;
      assert s[0] == a[0] && s[1..] == a[1..] + [d] + rest;
      SplitAtFirst(a[1..], d, rest);
      assert [a[0]] + a[1..] == a;
    }
  }

  /** Joining with a last piece split off: the `pop` followed by `join` that
      extracts a folder and a file name. */
  lemma {:induction false} JoinLast(parts: seq<string>, d: char)
    requires |parts| >= 2
    ensures Join(parts, d) == Join(parts[..|parts| - 1], d) + [d] + parts[|parts| - 1]
    decreases |parts|
  {
    if |parts| > 2 {
      JoinLast(parts[1..], d);
      assert parts[1..][..|parts| - 2] == parts[..|parts| - 1][1..];
      assert parts[..|parts| - 1][0] == parts[0];
    } else {
      assert parts[..1] == [parts[0]];
    }
  }

  /** `s.replace(/a/g, b)` for single characters: no `a` is left, a string
      without `a` is unchanged, and every other character stays in place. */
  function ReplaceAll(s: string, a: char, b: char): (r: string)
    ensures |r| == |s|
    ensures a != b ==> a !in r
    ensures a !in s ==> r == s
    ensures a in s ==> b in r
  {
    var r := seq(|s|, i requires 0 <= i < |s| => if s[i] == a then b else s[i]);
    assert forall i :: 0 <= i < |s| ==> r[i] == (if s[i] == a then b else s[i]);
    r
  }

  predicate IsDecimalDigit(c: char) {
    '0' <= c <= '9'
  }

  function DigitChar(d: nat): (c: char)
    requires d < 10
    ensures IsDecimalDigit(c) && c as int - '0' as int == d
  {
    ('0' as int + d) as char
  }

  /** The template-literal rendering `${n}` of a non-negative integer. */
  function NatToString(n: nat): (s: string)
    ensures |s| >= 1
    ensures forall i :: 0 <= i < |s| ==> IsDecimalDigit(s[i])
  {
    if n < 10 then [DigitChar(n)] else NatToString(n / 10) + [DigitChar(n % 10)]
  }

  /** `Number(s)` on a string of decimal digits (the empty string is 0, as in
      JavaScript). */
  function DecimalValue(s: string): nat
    requires forall i :: 0 <= i < |s| ==> IsDecimalDigit(s[i])
  {
    if |s| == 0 then 0
    else
      assert IsDecimalDigit(s[|s| - 1]);
      DecimalValue(s[..|s| - 1]) * 10 + (s[|s| - 1] as int - '0' as int)
  }

  /** Rendering a number in decimal and reading it back gives the number. */
  lemma {:induction false} DecimalRoundTrip(n: nat)
    ensures DecimalValue(NatToString(n)) == n
  {
    if n >= 10 {
      DecimalRoundTrip(n / 10);
      var s := NatToString(n);
      assert s[..|s| - 1] == NatToString(n / 10);
    }
  }
}

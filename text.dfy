/** Text building blocks shared by the SQL fragment builders: the decimal
    rendering JavaScript uses when a position number is interpolated into a
    template string (`$${idx + 1}`), and `Array.prototype.join`. */
module Text {

  /** The decimal digit character for `d`. */
  function DigitChar(d: nat): (c: char)
    requires d < 10
  {
    (('0' as int) + d) as char
  }

  predicate IsDigit(c: char) {
    '0' <= c <= '9'
  }

  predicate AllDigits(s: string) {
    forall i :: 0 <= i < |s| ==> IsDigit(s[i])
  }

  /** Decimal rendering of a natural number, as `${n}` produces for a
      non-negative integer: at least one digit, and no leading zero. */
  function NatToString(n: nat): (s: string)
    ensures |s| >= 1 && AllDigits(s)
    ensures s[0] == '0' ==> n == 0
    decreases n
  {
    if n < 10 then [DigitChar(n)] else NatToString(n / 10) + [DigitChar(n % 10)]
  }

  /** The number a string of decimal digits denotes. */
  function DigitsValue(s: string): nat
    requires AllDigits(s)
  {
    if s == [] then 0
    else DigitsValue(s[..|s| - 1]) * 10 + ((s[|s| - 1] as int) - ('0' as int))
  }

  /** Reading back a rendered position gives the position: the `$n`
      placeholders name exactly the parameter they were built for. */
  lemma {:induction false} NatToStringRoundTrip(n: nat)
    ensures DigitsValue(NatToString(n)) == n
    decreases n
  {
    if n >= 10 {
      var s := NatToString(n);
      assert s[..|s| - 1] == NatToString(n / 10);
      NatToStringRoundTrip(n / 10);
    }
  }

  /** Distinct positions are rendered as distinct texts. */
  lemma {:induction false} NatToStringInjective(m: nat, n: nat)
    requires m != n
    ensures NatToString(m) != NatToString(n)
  {
    NatToStringRoundTrip(m);
    NatToStringRoundTrip(n);
  }

  /** `pieces.join("")`: the pieces one after another. */
  function Concat(pieces: seq<string>): string {
    if pieces == [] then "" else pieces[0] + Concat(pieces[1..])
  }

  lemma {:induction false} ConcatAppend(a: seq<string>, b: seq<string>)
    ensures Concat(a + b) == Concat(a) + Concat(b)
  {
    if a == [] {
      assert a + b == b;
    } else {
      assert (a + b)[1..] == a[1..] + b;
      ConcatAppend(a[1..], b);
    }
  }

  /** `parts.join(sep)`: the parts with `sep` between neighbours. */
  function Join(parts: seq<string>, sep: string): string {
    if |parts| == 0 then ""
    else if |parts| == 1 then parts[0]
    else parts[0] + sep + Join(parts[1..], sep)
  }

  /** Reference layout of a join of `n >= 1` parts: `2n - 1` pieces, the
      parts at the even positions in order and the separator at each of the
      `n - 1` odd positions, so the first and the last piece are parts. */
  function Interleave(parts: seq<string>, sep: string): seq<string>
    requires |parts| >= 1
  {
    seq(2 * |parts| - 1, k requires 0 <= k < 2 * |parts| - 1 =>
      if k % 2 == 0 then parts[k / 2] else sep)
  }

  /** Position by position: part i at 2i, the separator at every odd position. */
  lemma {:induction false} InterleavePositions(parts: seq<string>, sep: string)
    requires |parts| >= 1
    ensures |Interleave(parts, sep)| == 2 * |parts| - 1
    ensures forall i :: 0 <= i < |parts| ==> Interleave(parts, sep)[2 * i] == parts[i]
    ensures forall i :: 0 <= i < |parts| - 1 ==> Interleave(parts, sep)[2 * i + 1] == sep
  {
    forall i | 0 <= i < |parts| ensures Interleave(parts, sep)[2 * i] == parts[i] {
      assert (2 * i) % 2 == 0 && (2 * i) / 2 == i;
    }
    forall i | 0 <= i < |parts| - 1 ensures Interleave(parts, sep)[2 * i + 1] == sep {
      assert (2 * i + 1) % 2 == 1;
    }
  }

  /** Joining two parts puts the separator once between them. */
  lemma {:induction false} JoinTwo(a: string, b: string, sep: string)
    ensures Join([a, b], sep) == a + sep + b
  {
    assert [a, b][1..] == [b];
  }

  /** A join is exactly its interleaved layout: `n - 1` separators, none
      leading and none trailing. */
  lemma {:induction false} JoinIsInterleaved(parts: seq<string>, sep: string)
    requires |parts| >= 1
    ensures Join(parts, sep) == Concat(Interleave(parts, sep))
    decreases |parts|
  {
    if |parts| == 1 {
      assert Interleave(parts, sep) == [parts[0]];
      assert Concat([parts[0]]) == parts[0] + Concat([]);
    } else {
      var tail := Interleave(parts[1..], sep);
      assert Interleave(parts, sep) == [parts[0], sep] + tail;
      ConcatAppend([parts[0], sep], tail);
      assert Concat([parts[0], sep]) == parts[0] + sep by {
        assert Concat([sep]) == sep + Concat([]);
        assert [parts[0], sep][1..] == [sep];
      }
      JoinIsInterleaved(parts[1..], sep);
    }
  }

  /** The pieces of the source's "suffix joiner" idiom: each part followed
      by `sep`, except the last, which is followed by nothing. */
  function Suffixed(parts: seq<string>, sep: string): seq<string> {
    seq(|parts|, i requires 0 <= i < |parts| =>
      if i == |parts| - 1 then parts[i] else parts[i] + sep)
  }

  /** Suffixing every part but the last and concatenating is the same text
      as joining with the separator. */
  lemma {:induction false} SuffixedIsJoin(parts: seq<string>, sep: string)
    ensures Concat(Suffixed(parts, sep)) == Join(parts, sep)
    decreases |parts|
  {
    if |parts| == 1 {
      assert Suffixed(parts, sep) == [parts[0]];
      assert Concat([parts[0]]) == parts[0] + Concat([]);
    } else if |parts| > 1 {
      var s := Suffixed(parts, sep);
      assert s[0] == parts[0] + sep;
      assert s[1..] == Suffixed(parts[1..], sep);
      SuffixedIsJoin(parts[1..], sep);
    }
  }
}

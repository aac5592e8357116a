/**
 * The string operations of Python that the log parsers and file-name helpers
 * rely on: whitespace `split()`, `split(sep)`, `in` on strings, `startswith`,
 * slicing with negative bounds, `int()` on a decimal token and `str()` of an
 * integer.  Strings are ASCII sequences of `char`.
 */
module Text {
  import opened Common

  /** The bytes `bytes.split()` and `str.split()` treat as whitespace (ASCII). */
  predicate IsSpace(c: char)
  {
    c == ' ' || c == '\t' || c == '\n' || c == '\r' || c == '\U{B}' || c == '\U{C}'
  }

  predicate NoSpace(s: string)
  {
    forall i :: 0 <= i < |s| ==> !IsSpace(s[i])
  }

  /** Length of the leading run of non-space characters. */
  function TokenLength(s: string): (n: nat)
    ensures n <= |s|
    ensures NoSpace(s[..n])
    ensures n < |s| ==> IsSpace(s[n])
  {
    if s == [] || IsSpace(s[0]) then 0
    else
      var m := TokenLength(s[1..]);
      assert s[..m + 1] == [s[0]] + s[1..][..m];
      1 + m
  }

  /** `line.split()`: the maximal runs of non-space characters, in order. */
  function Fields(s: string): (r: seq<string>)
    ensures forall k :: 0 <= k < |r| ==> |r[k]| > 0 && NoSpace(r[k])
    decreases |s|
  {
    if s == [] then []
    else if IsSpace(s[0]) then Fields(s[1..])
    else
      var n := TokenLength(s);
      [s[..n]] + Fields(s[n..])
  }

  /** Joining tokens with single blanks, the inverse of `Fields` on well-formed lines. */
  function JoinBlank(toks: seq<string>): string
  {
    if toks == [] then []
    else if |toks| == 1 then toks[0]
    else toks[0] + " " + JoinBlank(toks[1..])
  }

  lemma {:induction false} TokenLengthOfWord(w: string, rest: string)
    requires |w| > 0 && NoSpace(w)
    requires rest == [] || IsSpace(rest[0])
    ensures TokenLength(w + rest) == |w|
    decreases |w|
  {
    if |w| > 1 {
      assert (w + rest)[1..] == w[1..] + rest;
      TokenLengthOfWord(w[1..], rest);
    } else {
      assert (w + rest)[1..] == rest;
    }
  }

  /** Splitting blank-joined words gives back the words. */
  lemma {:induction false} FieldsOfJoinBlank(toks: seq<string>)
    requires forall k :: 0 <= k < |toks| ==> |toks[k]| > 0 && NoSpace(toks[k])
    ensures Fields(JoinBlank(toks)) == toks
    decreases |toks|
  {
    if toks == [] {
    } else if |toks| == 1 {
      var w := toks[0];
      TokenLengthOfWord(w, []);
      assert w + [] == w;
      assert w[..|w|] == w;
      assert w[|w|..] == [];
    } else {
      var w := toks[0];
      var rest := " " + JoinBlank(toks[1..]);
      assert JoinBlank(toks) == w + rest;
      TokenLengthOfWord(w, rest);
      assert (w + rest)[..|w|] == w;
      assert (w + rest)[|w|..] == rest;
      assert rest[1..] == JoinBlank(toks[1..]);
      FieldsOfJoinBlank(toks[1..]);
      assert Fields(rest) == Fields(rest[1..]);
    }
  }

  /** `str.split(sep)`: the pieces between occurrences of `sep`, empty pieces kept. */
  function SplitOn(s: string, sep: char): (r: seq<string>)
    ensures |r| > 0
    ensures forall k :: 0 <= k < |r| ==> sep !in r[k]
    decreases |s|
  {
    if sep !in s then [s]
    else
      var i := FirstIndex(s, sep);
      [s[..i]] + SplitOn(s[i + 1..], sep)
  }

  function FirstIndex(s: string, c: char): (i: nat)
    requires c in s
    ensures i < |s| && s[i] == c && c !in s[..i]
  {
    if s[0] == c then 0
    else
      assert c in s[1..] by { var j :| 0 <= j < |s| && s[j] == c; assert s[1..][j - 1] == c; }
      var k := FirstIndex(s[1..], c);
      assert s[..k + 1] == [s[0]] + s[1..][..k];
      k + 1
  }

  function Join(parts: seq<string>, sep: char): string
    requires |parts| > 0
  {
    if |parts| == 1 then parts[0] else parts[0] + [sep] + Join(parts[1..], sep)
  }

  /** `sep.join(s.split(sep)) == s`: splitting loses nothing. */
  lemma {:induction false} JoinSplitOn(s: string, sep: char)
    ensures Join(SplitOn(s, sep), sep) == s
    decreases |s|
  {
    if sep in s {
      var i := FirstIndex(s, sep);
      JoinSplitOn(s[i + 1..], sep);
      assert s == s[..i] + [sep] + s[i + 1..];
    }
  }

  /** Number of occurrences of `c` in `s`. */
  function Occurrences(s: string, c: char): nat
  {
    if s == [] then 0 else Occurrences(s[..|s| - 1], c) + (if s[|s| - 1] == c then 1 else 0)
  }

  lemma {:induction false} OccurrencesAppend(a: string, b: string, c: char)
    ensures Occurrences(a + b, c) == Occurrences(a, c) + Occurrences(b, c)
    decreases |b|
  {
    if b == [] {
      assert a + b == a;
    } else {
      assert (a + b)[..|a + b| - 1] == a + b[..|b| - 1];
      OccurrencesAppend(a, b[..|b| - 1], c);
    }
  }

  lemma {:induction false} OccurrencesNone(s: string, c: char)
    requires c !in s
    ensures Occurrences(s, c) == 0
    decreases |s|
  {
    if s != [] {
      assert c !in s[..|s| - 1];
      OccurrencesNone(s[..|s| - 1], c);
    }
  }

  /** `s.split(sep)` has one piece more than `s` has separators. */
  lemma {:induction false} SplitOnCount(s: string, sep: char)
    ensures |SplitOn(s, sep)| == Occurrences(s, sep) + 1
    decreases |s|
  {
    if sep !in s {
      OccurrencesNone(s, sep);
    } else {
      var i := FirstIndex(s, sep);
      SplitOnCount(s[i + 1..], sep);
      assert s == s[..i] + [sep] + s[i + 1..];
      OccurrencesAppend(s[..i] + [sep], s[i + 1..], sep);
      OccurrencesAppend(s[..i], [sep], sep);
      OccurrencesNone(s[..i], sep);
      assert Occurrences([sep], sep) == Occurrences([], sep) + 1 by { assert [sep][..0] == []; }
    }
  }

  /** Python's `sub in s` on strings. */
  predicate Contains(s: string, sub: string)
    decreases |s|
  {
    StartsWith(s, sub) || (s != [] && Contains(s[1..], sub))
  }

  /** A word longer than the text cannot occur in it. */
  lemma {:induction false} ContainsTooLong(s: string, sub: string)
    requires |sub| > |s|
    ensures !Contains(s, sub)
    decreases |s|
  {
    if s != [] { ContainsTooLong(s[1..], sub); }
  }

  /** A word whose first letter is missing from the text cannot occur in it. */
  lemma {:induction false} ContainsFirstLetter(s: string, sub: string)
    requires |sub| > 0 && sub[0] !in s
    ensures !Contains(s, sub)
    decreases |s|
  {
    if s != [] {
      assert sub[0] !in s[1..];
      ContainsFirstLetter(s[1..], sub);
    }
  }

  /** A word with a letter missing from the text cannot occur in it. */
  lemma {:induction false} ContainsLetter(s: string, sub: string, j: nat)
    requires j < |sub| && sub[j] !in s
    ensures !Contains(s, sub)
    decreases |s|
  {
    if s != [] {
      assert sub[j] !in s[1..];
      ContainsLetter(s[1..], sub, j);
    }
  }

  /** Where a word occurs, so does every prefix of it. */
  lemma {:induction false} ContainsPrefix(s: string, sub: string, k: nat)
    requires k <= |sub| && Contains(s, sub)
    ensures Contains(s, sub[..k])
    decreases |s|
  {
    if StartsWith(s, sub) {
      assert s[..k] == sub[..k];
    } else {
      ContainsPrefix(s[1..], sub, k);
    }
  }

  predicate StartsWith(s: string, prefix: string)
  {
    |prefix| <= |s| && s[..|prefix|] == prefix
  }

  /** A Python slice bound after negative wrap-around and clamping to `[0, n]`. */
  function SliceBound(k: int, n: nat): (b: nat)
    ensures b <= n
    ensures 0 <= k <= n ==> b == k
    ensures -(n as int) <= k < 0 ==> b == k + n
  {
    if k < 0 then (if k + n < 0 then 0 else k + n) else if k > n then n else k
  }

  /** `s[lo:hi]` with Python's rules for negative and out-of-range bounds. */
  function Slice<T>(s: seq<T>, lo: int, hi: int): (r: seq<T>)
    ensures |r| <= |s|
    ensures SliceBound(lo, |s|) <= SliceBound(hi, |s|) ==> r == s[SliceBound(lo, |s|)..SliceBound(hi, |s|)]
    ensures SliceBound(hi, |s|) < SliceBound(lo, |s|) ==> r == []
  {
    var a := SliceBound(lo, |s|);
    var b := SliceBound(hi, |s|);
    if a <= b then s[a..b] else []
  }

  /** `s[lo:]`. */
  function SliceFrom<T>(s: seq<T>, lo: int): seq<T> { Slice(s, lo, |s|) }

  /** `s[:hi]`. */
  function SliceTo<T>(s: seq<T>, hi: int): seq<T> { Slice(s, 0, hi) }

  // ---------------------------------------------------------- concatenation

  /** The first `n` strings, one after the other. */
  function Concat(parts: seq<string>, n: nat): string
    requires n <= |parts|
  {
    if n == 0 then "" else Concat(parts, n - 1) + parts[n - 1]
  }

  /** A shorter concatenation is a prefix of a longer one. */
  lemma {:induction false} ConcatPrefix(parts: seq<string>, k: nat, n: nat)
    requires k <= n <= |parts|
    ensures |Concat(parts, k)| <= |Concat(parts, n)|
    ensures Concat(parts, n)[..|Concat(parts, k)|] == Concat(parts, k)
    decreases n
  {
    if k < n {
      ConcatPrefix(parts, k, n - 1);
      var a, b := Concat(parts, k), Concat(parts, n - 1);
      assert (b + parts[n - 1])[..|a|] == b[..|a|];
    }
  }

  /** Part `k` sits right after the parts before it. */
  lemma {:induction false} ConcatPart(parts: seq<string>, k: nat, n: nat)
    requires k < n <= |parts|
    ensures var a, b := |Concat(parts, k)|, |Concat(parts, k + 1)|;
      a <= b <= |Concat(parts, n)| && Concat(parts, n)[a..b] == parts[k]
  {
    ConcatPrefix(parts, k + 1, n);
    var a, b := Concat(parts, k), Concat(parts, k + 1);
    assert b == a + parts[k];
    assert Concat(parts, n)[|a|..|b|] == b[|a|..];
  }

  /** The concatenation starts with the first part. */
  lemma {:induction false} ConcatHead(parts: seq<string>, n: nat)
    requires 0 < n <= |parts|
    ensures Concat(parts, n) == parts[0] + Concat(parts[1..], n - 1)
  {
    if n > 1 {
      ConcatHead(parts, n - 1);
      assert parts[1..][n - 2] == parts[n - 1];
    }
  }

  /** Splitting joined parts that hold no separator gives the parts back. */
  lemma {:induction false} SplitOnJoin(parts: seq<string>, sep: char)
    requires |parts| > 0 && forall k :: 0 <= k < |parts| ==> sep !in parts[k]
    ensures SplitOn(Join(parts, sep), sep) == parts
    decreases |parts|
  {
    if |parts| > 1 {
      var rest := parts[1..];
      forall k | 0 <= k < |rest| ensures sep !in rest[k] { assert rest[k] == parts[k + 1]; }
      SplitOnJoin(rest, sep);
      var tail := Join(rest, sep);
      assert Join(parts, sep) == parts[0] + [sep] + tail;
      SplitOnCons(parts[0], sep, tail);
      calc {
        SplitOn(Join(parts, sep), sep);
        [parts[0]] + SplitOn(tail, sep);
        [parts[0]] + rest;
        parts;
      }
    }
  }

  /** A first field without the separator is split off on its own. */
  lemma {:induction false} SplitOnCons(p: string, sep: char, rest: string)
    requires sep !in p
    ensures SplitOn(p + [sep] + rest, sep) == [p] + SplitOn(rest, sep)
  {
    var s := p + [sep] + rest;
    assert s[|p|] == sep;
    var i := FirstIndex(s, sep);
    assert i == |p|;
    assert s[..i] == p;
    assert s[i + 1..] == rest;
  }

  /**
   * `template.format(*args)` for a template whose only fields are `{}`: the
   * literal pieces between the fields, with the arguments filled in order.
   */
  function Format(pieces: seq<string>, args: seq<string>): string
    requires |pieces| == |args| + 1
  {
    if args == [] then pieces[0] else pieces[0] + args[0] + Format(pieces[1..], args[1..])
  }

  // ---------------------------------------------------------------- integers

  predicate IsDigit(c: char) { '0' <= c <= '9' }

  predicate AllDigits(s: string) { forall i :: 0 <= i < |s| ==> IsDigit(s[i]) }

  function DigitValue(c: char): nat requires IsDigit(c) { (c as int - '0' as int) as nat }

  function DigitChar(d: nat): (c: char)
    requires d < 10
    ensures IsDigit(c) && DigitValue(c) == d
  {
    (d + '0' as int) as char
  }

  /** The value of a string of decimal digits, most significant first. */
  function DigitsValue(s: string): nat
    requires AllDigits(s)
  {
    if s == [] then 0 else 10 * DigitsValue(s[..|s| - 1]) + DigitValue(s[|s| - 1])
  }

  /** `str(n)` for a natural number: decimal without leading zeros. */
  function NatToString(n: nat): (s: string)
    ensures |s| > 0 && AllDigits(s)
  {
    if n < 10 then [DigitChar(n)] else NatToString(n / 10) + [DigitChar(n % 10)]
  }

  lemma {:induction false} DigitsHaveNoSpace(s: string)
    requires AllDigits(s)
    ensures NoSpace(s)
  {
    forall i | 0 <= i < |s| ensures !IsSpace(s[i]) { assert IsDigit(s[i]); }
  }

  /** `str(n)` for an integer. */
  function IntToString(n: int): string
  {
    if n < 0 then "-" + NatToString(-n) else NatToString(n)
  }

  /** `str(n)` is one word. */
  lemma {:induction false} IntToStringWord(n: int)
    ensures |IntToString(n)| > 0 && NoSpace(IntToString(n))
  {
    var d := NatToString(if n < 0 then -n else n);
    DigitsHaveNoSpace(d);
    if n < 0 {
      var s := "-" + d;
      forall i | 0 <= i < |s| ensures !IsSpace(s[i]) {
        if i > 0 { assert s[i] == d[i - 1]; }
      }
    }
  }

  /**
   * `int(tok)` on a token without blanks: an optional sign followed by at
   * least one ASCII digit; anything else is refused.
   */
  function ParseInt(tok: string): Option<int>
  {
    if |tok| > 0 && (tok[0] == '-' || tok[0] == '+') then
      var body := tok[1..];
      if |body| > 0 && AllDigits(body) then
        Some(if tok[0] == '-' then -(DigitsValue(body) as int) else DigitsValue(body) as int)
      else None
    else if |tok| > 0 && AllDigits(tok) then Some(DigitsValue(tok) as int)
    else None
  }

  lemma {:induction false} DigitsOfNat(n: nat)
    ensures DigitsValue(NatToString(n)) == n
  {
    if n >= 10 {
      var s := NatToString(n);
      DigitsOfNat(n / 10);
      assert s[..|s| - 1] == NatToString(n / 10);
    }
  }

  /** `int(str(n)) == n`. */
  lemma {:induction false} ParseIntToString(n: int)
    ensures ParseInt(IntToString(n)) == Some(n)
  {
    var tok := IntToString(n);
    if n < 0 {
      var body := NatToString(-n);
      DigitsOfNat(-n);
      assert tok == "-" + body && tok[0] == '-' && tok[1..] == body;
      assert DigitsValue(body) == -n;
    } else {
      DigitsOfNat(n);
      assert tok == NatToString(n) && IsDigit(tok[0]);
      assert tok[0] != '-' && tok[0] != '+';
    }
  }
}

/**
 * The small string helpers of the database layer: the natural sort key of
 * file names, the sort key of spike files, the channel-name line rule, the
 * unit-string classification, the file-name splitters, the re-indexing of
 * a canonical label onto the frame order a patient watched, and the list
 * of patient ids.
 */
module Helpers {
  import opened Common
  import opened Text
  import opened NdArray

  // ------------------------------------------------------ natural sort key

  /** A chunk of a natural sort key: a run of digits as its number, or text as it is. */
  datatype Chunk = Number(n: nat) | Word(s: string)

  /** `atoi`: a non-empty string of digits becomes its number, anything else stays text. */
  function Atoi(text: string): (c: Chunk)
    ensures c.Number? <==> |text| > 0 && AllDigits(text)
    ensures c.Word? ==> c.s == text
  {
    if |text| > 0 && AllDigits(text) then Number(DigitsValue(text)) else Word(text)
  }

  /** `atoi(str(n)) == n`. */
  lemma {:induction false} AtoiOfNat(n: nat)
    ensures Atoi(NatToString(n)) == Number(n)
  {
    DigitsOfNat(n);
  }

  predicate NoDigit(s: string)
  {
    forall i :: 0 <= i < |s| ==> !IsDigit(s[i])
  }

  /** Length of the leading run of characters that are not digits. */
  function TextRun(s: string): (n: nat)
    ensures n <= |s|
    ensures n < |s| ==> IsDigit(s[n])
  {
    if s == [] || IsDigit(s[0]) then 0 else 1 + TextRun(s[1..])
  }

  /** Length of the leading run of digits. */
  function DigitRun(s: string): (n: nat)
    ensures n <= |s|
    ensures n < |s| ==> !IsDigit(s[n])
  {
    if s == [] || !IsDigit(s[0]) then 0 else 1 + DigitRun(s[1..])
  }

  lemma {:induction false} TextRunNoDigit(s: string)
    ensures NoDigit(s[..TextRun(s)])
  {
    if s != [] && !IsDigit(s[0]) {
      TextRunNoDigit(s[1..]);
      assert s[..TextRun(s)] == [s[0]] + s[1..][..TextRun(s[1..])];
    }
  }

  lemma {:induction false} DigitRunAllDigits(s: string)
    ensures AllDigits(s[..DigitRun(s)])
  {
    if s != [] && IsDigit(s[0]) {
      DigitRunAllDigits(s[1..]);
      assert s[..DigitRun(s)] == [s[0]] + s[1..][..DigitRun(s[1..])];
    }
  }

  /** The text run of a text without digits followed by a digit is that text. */
  lemma {:induction false} TextRunOf(p: string, rest: string)
    requires NoDigit(p) && |rest| > 0 && IsDigit(rest[0])
    ensures TextRun(p + rest) == |p|
    decreases |p|
  {
    if p == [] {
      assert p + rest == rest;
    } else {
      assert (p + rest)[1..] == p[1..] + rest;
      TextRunOf(p[1..], rest);
    }
  }

  /** The digit run of digits followed by no digit is those digits. */
  lemma {:induction false} DigitRunOf(d: string, q: string)
    requires AllDigits(d) && (q == [] || !IsDigit(q[0]))
    ensures DigitRun(d + q) == |d|
    decreases |d|
  {
    if d == [] {
      assert d + q == q;
    } else {
      assert (d + q)[1..] == d[1..] + q;
      DigitRunOf(d[1..], q);
    }
  }

  /**
   * `re.split(r"(\d+)", text)`: the text between the runs of digits and the
   * runs themselves, alternating, first and last a (possibly empty) text.
   */
  function SplitDigits(s: string): (r: seq<string>)
    decreases |s|
  {
    var a := TextRun(s);
    if a == |s| then [s]
    else
      var b := DigitRun(s[a..]);
      [s[..a], s[a..a + b]] + SplitDigits(s[a + b..])
  }

  /** The pieces of the split, put back together, are the text. */
  lemma {:induction false} SplitDigitsConcat(s: string)
    ensures Concat(SplitDigits(s), |SplitDigits(s)|) == s
    decreases |s|
  {
    var a := TextRun(s);
    if a == |s| {
      assert Concat([s], 1) == Concat([s], 0) + s;
    } else {
      var b := DigitRun(s[a..]);
      var x, y, rest := s[..a], s[a..a + b], SplitDigits(s[a + b..]);
      SplitDigitsConcat(s[a + b..]);
      var r := SplitDigits(s);
      assert r[0] == x && r[1..][0] == y && r[1..][1..] == rest;
      ConcatHead(r, |r|);
      ConcatHead(r[1..], |r| - 1);
      ThreeParts(s, a, a + b);
    }
  }

  lemma {:induction false} ThreeParts(s: string, i: nat, j: nat)
    requires i <= j <= |s|
    ensures s == s[..i] + (s[i..j] + s[j..])
  {
    assert s[i..] == s[i..j] + s[j..];
  }

  /** The parts of `a`, a separator `x` and `b` put together. */
  lemma {:induction false} AroundSeparator(a: string, x: char, b: string)
    ensures var s := a + ([x] + b);
            s[..|a|] == a && s[|a|] == x && s[|a| + 1..] == b
  {
    var s := a + ([x] + b);
    assert s[|a|..] == [x] + b;
  }

  /** A piece of the split: text without digits, or a non-empty run of digits. */
  predicate PieceShape(p: string, isText: bool)
  {
    if isText then NoDigit(p) else |p| > 0 && AllDigits(p)
  }

  /** Pieces that alternate text and digit runs, beginning and ending with text. */
  predicate Alternating(r: seq<string>)
    decreases |r|
  {
    if |r| == 1 then PieceShape(r[0], true)
    else |r| >= 3 && PieceShape(r[0], true) && PieceShape(r[1], false) && Alternating(r[2..])
  }

  /** The split alternates text without digits and non-empty runs of digits. */
  lemma {:induction false} SplitDigitsPieces(s: string)
    ensures Alternating(SplitDigits(s))
    decreases |s|
  {
    var a := TextRun(s);
    TextRunNoDigit(s);
    var r := SplitDigits(s);
    if a < |s| {
      var b := DigitRun(s[a..]);
      DigitRunAllDigits(s[a..]);
      assert s[a..][..b] == s[a..a + b];
      SplitDigitsPieces(s[a + b..]);
      assert r[2..] == SplitDigits(s[a + b..]);
    } else {
      assert s[..a] == s;
    }
  }

  /** Piece `k` of alternating pieces is text exactly when `k` is even, and there is an odd number of them. */
  lemma {:induction false} AlternatingAt(r: seq<string>, k: nat)
    requires Alternating(r) && k < |r|
    ensures |r| % 2 == 1
    ensures PieceShape(r[k], k % 2 == 0)
    decreases |r|
  {
    if |r| > 1 {
      if k >= 2 {
        AlternatingAt(r[2..], k - 2);
      } else {
        AlternatingAt(r[2..], 0);
      }
    }
  }

  /** A text without digits, a run of digits and a text that does not go on with a digit split into the three. */
  lemma {:induction false} SplitDigitsOfRun(p: string, d: string, q: string)
    requires NoDigit(p) && |d| > 0 && AllDigits(d) && (q == [] || !IsDigit(q[0]))
    ensures SplitDigits(p + d + q) == [p, d] + SplitDigits(q)
  {
    var s := p + d + q;
    assert s == p + (d + q);
    TextRunOf(p, d + q);
    var a := TextRun(s);
    assert s[a..] == d + q;
    DigitRunOf(d, q);
    var b := DigitRun(d + q);
    assert s[..a] == p && s[a..a + b] == d && s[a + b..] == q;
  }

  /** `natural_keys`: the split with every digit run made a number. */
  function NaturalKeys(text: string): (r: seq<Chunk>)
    ensures |r| == |SplitDigits(text)|
  {
    var parts := SplitDigits(text);
    seq(|parts|, k requires 0 <= k < |parts| => Atoi(parts[k]))
  }

  /** The key alternates text and numbers: the text pieces of the split, and the values of its digit runs. */
  lemma {:induction false} NaturalKeysAlternate(text: string)
    ensures var parts, r := SplitDigits(text), NaturalKeys(text);
            forall k :: 0 <= k < |r| ==>
              if k % 2 == 0 then r[k] == Word(parts[k]) else AllDigits(parts[k]) && r[k] == Number(DigitsValue(parts[k]))
  {
    SplitDigitsPieces(text);
    var parts := SplitDigits(text);
    forall k | 0 <= k < |parts| && k % 2 == 0 ensures !(|parts[k]| > 0 && AllDigits(parts[k])) {
      AlternatingAt(parts, k);
      if |parts[k]| > 0 {
        assert !IsDigit(parts[k][0]);
      }
    }
    forall k | 0 <= k < |parts| && k % 2 == 1 ensures |parts[k]| > 0 && AllDigits(parts[k]) {
      AlternatingAt(parts, k);
    }
  }

  /** Python's `<` on strings: lexicographic by code point. */
  predicate StrLess(a: string, b: string)
    decreases |a|
  {
    if a == [] then b != []
    else if b == [] then false
    else if a[0] == b[0] then StrLess(a[1..], b[1..])
    else a[0] < b[0]
  }

  /** `<` on two chunks of the same kind (Python refuses to compare a number with text). */
  predicate ChunkLess(a: Chunk, b: Chunk)
  {
    match (a, b)
    case (Number(m), Number(n)) => m < n
    case (Word(x), Word(y)) => StrLess(x, y)
    case _ => false
  }

  /** Python's `<` on two lists of chunks: lexicographic. */
  predicate KeysLess(a: seq<Chunk>, b: seq<Chunk>)
    decreases |a|
  {
    if a == [] then b != []
    else if b == [] then false
    else if a[0] == b[0] then KeysLess(a[1..], b[1..])
    else ChunkLess(a[0], b[0])
  }

  /**
   * Two names that differ only in one embedded number sort by the value of
   * that number.
   */
  lemma {:induction false} NaturalKeysOrderNumbers(p: string, m: nat, n: nat, q: string)
    requires NoDigit(p) && m < n && (q == [] || !IsDigit(q[0]))
    ensures KeysLess(NaturalKeys(p + NatToString(m) + q), NaturalKeys(p + NatToString(n) + q))
  {
    var a, b := NaturalKeys(p + NatToString(m) + q), NaturalKeys(p + NatToString(n) + q);
    NaturalKeysOfRun(p, NatToString(m), q);
    NaturalKeysOfRun(p, NatToString(n), q);
    DigitsOfNat(m);
    DigitsOfNat(n);
    KeysLessAtSecond(a, b);
  }

  /** Keys that agree in their first chunk compare by their second. */
  lemma {:induction false} KeysLessAtSecond(a: seq<Chunk>, b: seq<Chunk>)
    requires |a| >= 2 && |b| >= 2 && a[0] == b[0] && a[1] != b[1] && ChunkLess(a[1], b[1])
    ensures KeysLess(a, b)
  {
    var a', b' := a[1..], b[1..];
    assert a'[0] == a[1] && b'[0] == b[1];
    assert KeysLess(a', b');
  }

  /** A text run followed by a digit run gives the text's key and the digits' value as the first two keys. */
  lemma {:induction false} NaturalKeysOfRun(p: string, d: string, q: string)
    requires NoDigit(p) && |d| > 0 && AllDigits(d) && (q == [] || !IsDigit(q[0]))
    ensures var r := NaturalKeys(p + d + q);
            |r| >= 2 && r[0] == Atoi(p) && r[1] == Number(DigitsValue(d))
  {
    SplitDigitsOfRun(p, d, q);
    var parts := SplitDigits(p + d + q);
    assert parts[0] == p && parts[1] == d;
  }

  /** The example of the source: `CSC2_SU1.npy` sorts before `CSC10_SU1.npy`, unlike in plain string order. */
  lemma {:induction false} NaturalKeysExample()
    ensures KeysLess(NaturalKeys("CSC2_SU1.npy"), NaturalKeys("CSC10_SU1.npy"))
  {
    assert NatToString(2) == "2";
    assert NatToString(10) == NatToString(1) + "0";
    assert "CSC" + NatToString(2) + "_SU1.npy" == "CSC2_SU1.npy";
    assert "CSC" + NatToString(10) + "_SU1.npy" == "CSC10_SU1.npy";
    NaturalKeysOrderNumbers("CSC", 2, 10, "_SU1.npy");
  }

  /** In plain string order the same two names come the other way round. */
  lemma {:induction false} StringOrderExample()
    ensures StrLess("CSC10_SU1.npy", "CSC2_SU1.npy")
  {
    var a, b := "CSC10_SU1.npy", "CSC2_SU1.npy";
    assert a[1..][1..][1..] == "10_SU1.npy" && b[1..][1..][1..] == "2_SU1.npy";
  }

  // ------------------------------------------------------- spike file keys

  predicate IsLetter(c: char) { 'a' <= c <= 'z' || 'A' <= c <= 'Z' }

  /** A character `\w` matches (ASCII letters, digits and the underscore). */
  predicate IsWordChar(c: char) { IsLetter(c) || IsDigit(c) || c == '_' }

  /** Length of the leading run of word characters. */
  function WordRun(s: string): (n: nat)
    ensures n <= |s|
  {
    if s == [] || !IsWordChar(s[0]) then 0 else 1 + WordRun(s[1..])
  }

  const SpikePrefix: string := "CSC"
  const SpikeSuffix: string := ".npy"

  /**
   * `re.match(r"CSC(\d+)_(\w+)(\d*)\.npy", name)`, anchored at the start
   * only: the channel number and the whole word run after the underscore,
   * which the greedy `\w+` takes up to the `.npy`.
   */
  function SpikeFileMatch(filename: string): (m: Option<(nat, string)>)
    ensures m.Some? ==> |m.value.1| > 0
  {
    if !StartsWith(filename, SpikePrefix) then None
    else
      var rest := filename[|SpikePrefix|..];
      var d := DigitRun(rest);
      DigitRunAllDigits(rest);
      if d == 0 || d == |rest| || rest[d] != '_' then None
      else
        var tail := rest[d + 1..];
        var w := WordRun(tail);
        if w == 0 || !StartsWith(tail[w..], SpikeSuffix) then None
        else Some((DigitsValue(rest[..d]), tail[..w]))
  }

  /** A sort key: channel number, unit type and unit number, or the file name itself. */
  datatype SortKey = Key(csc: nat, unitType: string, unitNr: nat) | Name(filename: string)

  /**
   * `extract_sort_key` as written: since `(\d*)` always matches empty after
   * the greedy `(\w+)`, the unit number of a match is always 0.
   */
  function ExtractSortKey(filename: string): (k: SortKey)
    ensures SpikeFileMatch(filename).None? <==> k == Name(filename)
    ensures k.Key? ==> k.unitNr == 0
  {
    match SpikeFileMatch(filename)
    case None => Name(filename)
    case Some((csc, run)) => Key(csc, run, 0)
  }

  /** Length of the trailing run of digits. */
  function TrailingDigits(s: string): (n: nat)
    ensures n <= |s|
    ensures forall i :: |s| - n <= i < |s| ==> IsDigit(s[i])
    ensures n < |s| ==> !IsDigit(s[|s| - n - 1])
  {
    if s == [] || !IsDigit(s[|s| - 1]) then 0
    else TrailingDigits(s[..|s| - 1]) + 1
  }

  /**
   * The key the documentation describes: the unit type without its trailing
   * digits, and those digits as the unit number (what the pattern with a
   * lazy `(\w+?)` yields).
   */
  function ExtractSortKeyIntended(filename: string): (k: SortKey)
    ensures SpikeFileMatch(filename).None? <==> k == Name(filename)
  {
    match SpikeFileMatch(filename)
    case None => Name(filename)
    case Some((csc, run)) =>
      var n := TrailingDigits(run);
      var cut := if n == |run| then 1 else |run| - n;
      Key(csc, run[..cut], if cut == |run| then 0 else DigitsValue(run[cut..]))
  }

  lemma {:induction false} WordRunOf(w: string, q: string)
    requires (forall i :: 0 <= i < |w| ==> IsWordChar(w[i])) && (q == [] || !IsWordChar(q[0]))
    ensures WordRun(w + q) == |w|
    decreases |w|
  {
    if w == [] {
      assert w + q == q;
    } else {
      assert (w + q)[1..] == w[1..] + q;
      WordRunOf(w[1..], q);
    }
  }

  /** The names of the spike files of unit `u` of type `t` on channel `c`, with anything after them. */
  function SpikeFileName(c: nat, t: string, u: nat, ext: string): string
  {
    SpikePrefix + NatToString(c) + "_" + t + NatToString(u) + SpikeSuffix + ext
  }

  /** On such a name the pattern matches, with the channel and the unit type and number as one run. */
  lemma {:induction false} SpikeFileMatchOf(c: nat, t: string, u: nat, ext: string)
    requires |t| > 0 && forall i :: 0 <= i < |t| ==> IsLetter(t[i])
    ensures SpikeFileMatch(SpikeFileName(c, t, u, ext)) == Some((c, t + NatToString(u)))
  {
    var cs, us := NatToString(c), NatToString(u);
    var run := t + us;
    var w := SpikeSuffix + ext;
    assert SpikeFileName(c, t, u, ext) == SpikePrefix + (cs + (['_'] + (run + w)));
    assert w[..|SpikeSuffix|] == SpikeSuffix;
    SpikeFileMatchOfParts(cs, run, w);
    DigitsOfNat(c);
  }

  /** The match on a name built from its parts: the channel digits, the `\w` run, the suffix. */
  lemma {:induction false} SpikeFileMatchOfParts(cs: string, run: string, w: string)
    requires |cs| > 0 && AllDigits(cs)
    requires |run| > 0 && forall i :: 0 <= i < |run| ==> IsWordChar(run[i])
    requires StartsWith(w, SpikeSuffix)
    ensures SpikeFileMatch(SpikePrefix + (cs + (['_'] + (run + w)))) == Some((DigitsValue(cs), run))
  {
    var tail := run + w;
    var rest := cs + (['_'] + tail);
    assert (SpikePrefix + rest)[|SpikePrefix|..] == rest;
    DigitRunOf(cs, ['_'] + tail);
    AroundSeparator(cs, '_', tail);
    assert w[0] == '.';
    WordRunOf(run, w);
    assert tail[..|run|] == run && tail[|run|..] == w;
  }

  /** As written, the unit digits stay in the unit type and the unit number is 0. */
  lemma {:induction false} ExtractSortKeyAbsorbsUnitNumber(c: nat, t: string, u: nat, ext: string)
    requires |t| > 0 && forall i :: 0 <= i < |t| ==> IsLetter(t[i])
    ensures ExtractSortKey(SpikeFileName(c, t, u, ext)) == Key(c, t + NatToString(u), 0)
  {
    SpikeFileMatchOf(c, t, u, ext);
  }

  /** `CSC2_SU1.npy` is channel 2, unit type `SU`, unit 1. */
  lemma {:induction false} SpikeFileNameExample()
    ensures NatToString(1) == "1"
    ensures SpikeFileName(2, "SU", 1, "") == "CSC2_SU1.npy"
  {
    assert NatToString(2) == "2" && NatToString(1) == "1";
  }

  /** The example of the file-name layout: `CSC2_SU1.npy` gives `(2, "SU1", 0)`, not `(2, "SU", 1)`. */
  lemma {:induction false} ExtractSortKeyExample()
    ensures ExtractSortKey("CSC2_SU1.npy") == Key(2, "SU1", 0)
    ensures ExtractSortKeyIntended("CSC2_SU1.npy") == Key(2, "SU", 1)
  {
    SpikeFileNameExample();
    ExtractSortKeyAbsorbsUnitNumber(2, "SU", 1, "");
    ExtractSortKeyIntendedSplits(2, "SU", 1, "");
  }

  /** The intended key recovers channel, unit type and unit number. */
  lemma {:induction false} ExtractSortKeyIntendedSplits(c: nat, t: string, u: nat, ext: string)
    requires |t| > 0 && forall i :: 0 <= i < |t| ==> IsLetter(t[i])
    ensures ExtractSortKeyIntended(SpikeFileName(c, t, u, ext)) == Key(c, t, u)
  {
    SpikeFileMatchOf(c, t, u, ext);
    var us := NatToString(u);
    var run := t + us;
    TrailingDigitsOf(t, us);
    assert run[..|t|] == t && run[|t|..] == us;
    DigitsOfNat(u);
  }

  lemma {:induction false} TrailingDigitsOf(t: string, d: string)
    requires |t| > 0 && !IsDigit(t[|t| - 1]) && AllDigits(d)
    ensures TrailingDigits(t + d) == |d|
    decreases |d|
  {
    if d == [] {
      assert t + d == t;
    } else {
      var init := d[..|d| - 1];
      assert (t + d)[..|t + d| - 1] == t + init;
      TrailingDigitsOf(t, init);
    }
  }

  // ------------------------------------------------------------ channel names

  /** The rule of `get_channel_names` for one line of the file: all but its last six characters. */
  function ChannelName(line: string): (name: string)
    ensures |line| >= 6 ==> name == line[..|line| - 6]
    ensures |line| < 6 ==> name == ""
  {
    SliceTo(line, -6)
  }

  /** `get_channel_names` over the lines of the file, each with its line break. */
  method GetChannelNames(lines: seq<string>) returns (names: seq<string>)
    ensures |names| == |lines|
    ensures forall i :: 0 <= i < |lines| ==> names[i] == ChannelName(lines[i])
  {
    names := [];
    for i := 0 to |lines|
      invariant |names| == i
      invariant forall k :: 0 <= k < i ==> names[k] == ChannelName(lines[k])
    {
      names := names + [ChannelName(lines[i])];
    }
  }

  const ChannelSuffix: string := ".ncs"

  /**
   * Python reads a text file with universal newlines, so a line ends in a
   * single `"\n"`: six characters off `<name>.ncs\n` takes the last letter
   * of the name as well.
   */
  lemma {:induction false} ChannelNameDropsLastLetter(name: string)
    requires |name| > 0
    ensures ChannelName(name + ChannelSuffix + "\n") == name[..|name| - 1]
  {
    var line := name + ChannelSuffix + "\n";
    assert line[..|line| - 6] == name[..|name| - 1];
  }

  /**
   * The mock channel file writes `<region><n>.ncs` lines: for a one-digit
   * `n` the six-character cut leaves the brain region, which is what the
   * callers store the result as.
   */
  lemma {:induction false} ChannelNameOfMockLine(region: string, n: nat)
    requires 1 <= n <= 9
    ensures ChannelName(region + NatToString(n) + ChannelSuffix + "\n") == region
  {
    var name := region + NatToString(n);
    assert |NatToString(n)| == 1;
    ChannelNameDropsLastLetter(name);
    assert name[..|name| - 1] == region;
  }

  /**
   * The rule the docstring and the comment of `get_channel_names` describe:
   * the line break and the `.ncs` suffix removed.
   */
  function ChannelNameIntended(line: string): (name: string)
    ensures |name| <= |line|
  {
    var l := if |line| > 0 && line[|line| - 1] == '\n' then line[..|line| - 1] else line;
    if |l| >= |ChannelSuffix| && l[|l| - |ChannelSuffix|..] == ChannelSuffix then l[..|l| - |ChannelSuffix|] else l
  }

  /** The intended rule gives the bare name, for a line ending in a line break and for a last line without one. */
  lemma {:induction false} ChannelNameIntendedOf(name: string)
    ensures ChannelNameIntended(name + ChannelSuffix + "\n") == name
    ensures ChannelNameIntended(name + ChannelSuffix) == name
  {
    var l := name + ChannelSuffix;
    assert (l + "\n")[..|l + "\n"| - 1] == l;
    assert l[|l| - |ChannelSuffix|..] == ChannelSuffix;
    assert l[..|l| - |ChannelSuffix|] == name;
  }

  // -------------------------------------------------------------- unit names

  /** The packaged copy looks for `MU`/`SU`, the legacy one for `MUA`/`SUA`. */
  function MultiUnitTag(copy: Copy): string { if copy == Packaged then "MU" else "MUA" }

  function SingleUnitTag(copy: Copy): string { if copy == Packaged then "SU" else "SUA" }

  /**
   * `get_unit_type_and_number`: "M" for a multi unit (checked first), "S" for
   * a single unit, "X" otherwise; the unit number is the last character, so
   * an empty string is an IndexError.
   */
  function UnitTypeAndNumber(copy: Copy, unit: string): (r: Result<(string, string)>)
    ensures r.Err? <==> unit == []
    ensures r.Ok? ==> r.value.1 == [unit[|unit| - 1]]
    ensures r.Ok? ==> (r.value.0 == "M" <==> Contains(unit, MultiUnitTag(copy)))
    ensures r.Ok? ==> (r.value.0 == "S" <==> !Contains(unit, MultiUnitTag(copy)) && Contains(unit, SingleUnitTag(copy)))
    ensures r.Ok? ==> (r.value.0 == "X" <==> !Contains(unit, MultiUnitTag(copy)) && !Contains(unit, SingleUnitTag(copy)))
  {
    var unitType := if Contains(unit, MultiUnitTag(copy)) then "M"
                    else if Contains(unit, SingleUnitTag(copy)) then "S"
                    else "X";
    if unit == [] then Err(IndexOutOfRange) else Ok((unitType, [unit[|unit| - 1]]))
  }

  /** A unit the legacy copy calls a multi unit is one for the packaged copy too. */
  lemma {:induction false} UnitTypeLegacyMulti(unit: string)
    requires UnitTypeAndNumber(Legacy, unit).Ok? && UnitTypeAndNumber(Legacy, unit).value.0 == "M"
    ensures UnitTypeAndNumber(Packaged, unit) == UnitTypeAndNumber(Legacy, unit)
  {
    ContainsPrefix(unit, "MUA", 2);
    assert "MUA"[..2] == "MU";
  }

  /** The documented example `CSC_MUA1` is a multi unit numbered 1 for both copies; `CSC_MU1` only for the packaged one. */
  lemma {:induction false} UnitTypeExample()
    ensures UnitTypeAndNumber(Packaged, "CSC_MUA1") == Ok(("M", "1"))
    ensures UnitTypeAndNumber(Legacy, "CSC_MUA1") == Ok(("M", "1"))
    ensures UnitTypeAndNumber(Packaged, "CSC_MU1") == Ok(("M", "1"))
    ensures UnitTypeAndNumber(Legacy, "CSC_MU1") == Ok(("X", "1"))
  {
    assert StartsWith("MUA1", "MUA");
    assert Contains("CSC_MUA1", "MUA") by {
      assert "CSC_MUA1"[1..][1..][1..][1..] == "MUA1";
    }
    UnitTypeLegacyMulti("CSC_MUA1");
    assert Contains("CSC_MU1", "MU") by {
      assert StartsWith("MU1", "MU");
      assert "CSC_MU1"[1..][1..][1..][1..] == "MU1";
    }
    ContainsLetter("CSC_MU1", "MUA", 2);
    ContainsLetter("CSC_MU1", "SUA", 2);
  }

  // ------------------------------------------------------- file-name splitters

  /**
   * `extract_name_unit_id_from_unit_level_data_cleaning`: exactly three
   * `_`-separated fields; the `unit` prefix of the second and the `.npy`
   * suffix of the third are cut off.
   */
  function NameUnitId(filename: string): (r: Result<(string, string, string)>)
    ensures r.Ok? <==> Occurrences(filename, '_') == 2
  {
    SplitOnCount(filename, '_');
    var parts := SplitOn(filename, '_');
    if |parts| != 3 then Err(FieldCountMismatch)
    else Ok((parts[0], SliceFrom(parts[1], 4), SliceTo(parts[2], -4)))
  }

  /** Three fields without underscores, joined by underscores, are taken apart. */
  lemma {:induction false} NameUnitIdOfFields(name: string, u: string, a: string)
    requires '_' !in name && '_' !in u && '_' !in a
    ensures NameUnitId(name + "_" + u + "_" + a) == Ok((name, SliceFrom(u, 4), SliceTo(a, -4)))
  {
    var ua := u + ['_'] + a;
    assert name + "_" + u + "_" + a == name + ['_'] + ua;
    assert SplitOn(a, '_') == [a];
    SplitOnCons(u, '_', a);
    SplitOnCons(name, '_', ua);
    assert SplitOn(name + "_" + u + "_" + a, '_') == [name, u, a];
  }

  /** The fields of `<name>_unit<id>_<annotator>.npy` come back. */
  lemma {:induction false} NameUnitIdOf(name: string, id: string, annotator: string)
    requires '_' !in name && '_' !in id && '_' !in annotator
    ensures NameUnitId(name + "_unit" + id + "_" + annotator + ".npy") == Ok((name, id, annotator))
  {
    var u, a := "unit" + id, annotator + ".npy";
    assert name + "_unit" + id + "_" + annotator + ".npy" == name + "_" + u + "_" + a;
    NameUnitIdOfFields(name, u, a);
    assert u[4..] == id;
    assert SliceFrom(u, 4) == id;
    assert a[..|a| - 4] == annotator;
    assert SliceTo(a, -4) == annotator;
  }

  /** A date `YYYYMMDD…` as `YYYY-MM-DD…`. */
  function FormatDate(date: string): string
  {
    Slice(date, 0, 4) + "-" + Slice(date, 4, 6) + "-" + SliceFrom(date, 6)
  }

  /** A time `HHxMMxSS…` as `HH:MM:SS`. */
  function FormatTime(time: string): string
  {
    Slice(time, 0, 2) + ":" + Slice(time, 3, 5) + ":" + Slice(time, 6, 8)
  }

  lemma {:induction false} FormatDateOf(y: string, m: string, d: string)
    requires |y| == 4 && |m| == 2
    ensures FormatDate(y + m + d) == y + "-" + m + "-" + d
  {
    var s := y + m + d;
    assert s[0..4] == y && s[4..6] == m && s[6..] == d;
  }

  lemma {:induction false} FormatTimeOf(h: string, a: char, m: string, b: char, sec: string, rest: string)
    requires |h| == 2 && |m| == 2 && |sec| == 2
    ensures FormatTime(h + [a] + m + [b] + sec + rest) == h + ":" + m + ":" + sec
  {
    var s := h + [a] + m + [b] + sec + rest;
    assert s[0..2] == h && s[3..5] == m && s[6..8] == sec;
  }

  datatype Session = Session(patientId: string, sessionNr: string, date: string, time: string)

  /**
   * `extract_session_information`: exactly five fields, the first
   * discarded, the date and the time reformatted.
   */
  function SessionInformation(folder: string): (r: Result<Session>)
    ensures r.Ok? <==> Occurrences(folder, '_') == 4
  {
    SplitOnCount(folder, '_');
    var parts := SplitOn(folder, '_');
    if |parts| != 5 then Err(FieldCountMismatch)
    else Ok(Session(parts[1], parts[2], FormatDate(parts[3]), FormatTime(parts[4])))
  }

  /** The fields of `<prefix>_<patient>_<session>_<date>_<time>` come back, date and time reformatted. */
  lemma {:induction false} SessionInformationOf(prefix: string, patient: string, session: string, date: string, time: string)
    requires '_' !in prefix && '_' !in patient && '_' !in session && '_' !in date && '_' !in time
    ensures SessionInformation(prefix + "_" + patient + "_" + session + "_" + date + "_" + time)
            == Ok(Session(patient, session, FormatDate(date), FormatTime(time)))
  {
    var parts := [prefix, patient, session, date, time];
    assert Join(parts, '_') == prefix + "_" + patient + "_" + session + "_" + date + "_" + time by {
      assert Join(parts[4..], '_') == time;
      assert Join(parts[3..], '_') == date + "_" + time;
      assert Join(parts[2..], '_') == session + "_" + date + "_" + time;
    }
    SplitOnJoin(parts, '_');
  }

  /** `20151212` reads as `2015-12-12`. */
  lemma {:induction false} FormatDateExample()
    ensures FormatDate("20151212") == "2015-12-12"
  {
    FormatDateOf("2015", "12", "12");
    assert "2015" + "12" + "12" == "20151212";
  }

  /** `10h10m10s` reads as `10:10:10`. */
  lemma {:induction false} FormatTimeExample()
    ensures FormatTime("10h10m10s") == "10:10:10"
  {
    FormatTimeOf("10", 'h', "10", 'm', "10", "s");
    assert "10" + ['h'] + "10" + ['m'] + "10" + "s" == "10h10m10s";
  }

  /**
   * A session folder `session_46_1_20151212_10h10m10s` gives patient 46,
   * session 1, `2015-12-12` and `10:10:10`.
   */
  lemma {:induction false} SessionInformationExample()
    ensures SessionInformation("session_46_1_20151212_10h10m10s") == Ok(Session("46", "1", "2015-12-12", "10:10:10"))
  {
    assert "session" + "_" + "46" + "_" + "1" == "session_46_1";
    assert "session_46_1" + "_" + "20151212" == "session_46_1_20151212";
    assert "session_46_1_20151212" + "_" + "10h10m10s" == "session_46_1_20151212_10h10m10s";
    SessionInformationOf("session", "46", "1", "20151212", "10h10m10s");
    FormatDateExample();
    FormatTimeExample();
  }

  lemma {:induction false} ShortFolderJoin()
    ensures Join(["46", "1", "20151212", "10h10m10s"], '_') == "46_1_20151212_10h10m10s"
  {
    JoinFour("46", "1", "20151212", "10h10m10s");
  }

  /** Four parts joined by `_`. */
  lemma {:induction false} JoinFour(a: string, b: string, c: string, d: string)
    ensures Join([a, b, c, d], '_') == a + "_" + b + "_" + c + "_" + d
  {
    var parts := [a, b, c, d];
    var u := "_";
    assert Join(parts[3..], '_') == d;
    assert parts[2..][1..] == parts[3..];
    assert Join(parts[2..], '_') == c + u + d;
    assert parts[1..][1..] == parts[2..];
    assert Join(parts[1..], '_') == b + u + (c + u + d);
    assert Join(parts, '_') == a + u + (b + u + (c + u + d));
  }

  /** The four-field example of the documentation, `46_1_20151212_10h10m10s`, is refused. */
  lemma {:induction false} SessionInformationShortExample()
    ensures SessionInformation("46_1_20151212_10h10m10s") == Err(FieldCountMismatch)
  {
    ShortFolderJoin();
    SplitOnJoin(["46", "1", "20151212", "10h10m10s"], '_');
  }

  /**
   * `extract_binned_patient_aligned_label_information`: five fields
   * `<patient>_<label>_<annotator>_<date>_<rest>`, returned as patient,
   * annotator, label, date.
   */
  function BinnedLabelInformation(fileName: string): (r: Result<(string, string, string, string)>)
    ensures r.Ok? <==> Occurrences(fileName, '_') == 4
  {
    SplitOnCount(fileName, '_');
    var parts := SplitOn(fileName, '_');
    if |parts| != 5 then Err(FieldCountMismatch)
    else Ok((parts[0], parts[2], parts[1], parts[3]))
  }

  lemma {:induction false} BinnedLabelInformationOf(patient: string, labelName: string, annotator: string, date: string, rest: string)
    requires '_' !in patient && '_' !in labelName && '_' !in annotator && '_' !in date && '_' !in rest
    ensures BinnedLabelInformation(patient + "_" + labelName + "_" + annotator + "_" + date + "_" + rest)
            == Ok((patient, annotator, labelName, date))
  {
    var parts := [patient, labelName, annotator, date, rest];
    assert Join(parts, '_') == patient + "_" + labelName + "_" + annotator + "_" + date + "_" + rest by {
      assert Join(parts[4..], '_') == rest;
      assert Join(parts[3..], '_') == date + "_" + rest;
      assert Join(parts[2..], '_') == annotator + "_" + date + "_" + rest;
    }
    SplitOnJoin(parts, '_');
  }

  datatype LabelName = LabelName(id: string, name: string, annotator: string, date: string, category: string)

  /**
   * `extract_information_from_label_name`: exactly five fields
   * `<id>_<name>_<annotator>_<date>_<category>`, returned as they come.
   */
  function LabelNameInformation(fileName: string): (r: Result<LabelName>)
    ensures r.Ok? <==> Occurrences(fileName, '_') == 4
  {
    SplitOnCount(fileName, '_');
    var parts := SplitOn(fileName, '_');
    if |parts| != 5 then Err(FieldCountMismatch)
    else Ok(LabelName(parts[0], parts[1], parts[2], parts[3], parts[4]))
  }

  /** The five fields of a label name without underscores of their own come back. */
  lemma {:induction false} LabelNameInformationOf(id: string, name: string, annotator: string, date: string, category: string)
    requires '_' !in id && '_' !in name && '_' !in annotator && '_' !in date && '_' !in category
    ensures LabelNameInformation(id + "_" + name + "_" + annotator + "_" + date + "_" + category)
            == Ok(LabelName(id, name, annotator, date, category))
  {
    var parts := [id, name, annotator, date, category];
    assert Join(parts, '_') == id + "_" + name + "_" + annotator + "_" + date + "_" + category by {
      assert Join(parts[4..], '_') == category;
      assert Join(parts[3..], '_') == date + "_" + category;
      assert Join(parts[2..], '_') == annotator + "_" + date + "_" + category;
    }
    SplitOnJoin(parts, '_');
  }

  datatype AlignedLabelFile =AlignedLabelFile(patientId: string, labelId: string, labelName: string, annotator: string,
                                               date: string, labelClass: string)

  /**
   * `extract_patient_aligned_label_data_from_file_name`: exactly six fields,
   * the fifth, a date, reformatted.
   */
  function AlignedLabelData(fileName: string): (r: Result<AlignedLabelFile>)
    ensures r.Ok? <==> Occurrences(fileName, '_') == 5
  {
    SplitOnCount(fileName, '_');
    var parts := SplitOn(fileName, '_');
    if |parts| != 6 then Err(FieldCountMismatch)
    else Ok(AlignedLabelFile(parts[0], parts[1], parts[2], parts[3], FormatDate(parts[4]), parts[5]))
  }

  lemma {:induction false} AlignedLabelDataOf(patient: string, labelId: string, labelName: string, annotator: string,
                                              date: string, labelClass: string)
    requires '_' !in patient && '_' !in labelId && '_' !in labelName && '_' !in annotator && '_' !in date && '_' !in labelClass
    ensures AlignedLabelData(patient + "_" + labelId + "_" + labelName + "_" + annotator + "_" + date + "_" + labelClass)
            == Ok(AlignedLabelFile(patient, labelId, labelName, annotator, FormatDate(date), labelClass))
  {
    var f := patient + "_" + labelId + "_" + labelName + "_" + annotator + "_" + date + "_" + labelClass;
    var parts := [patient, labelId, labelName, annotator, date, labelClass];
    JoinSix(patient, labelId, labelName, annotator, date, labelClass);
    SplitOnJoin(parts, '_');
    assert SplitOn(f, '_') == parts;
  }

  /** Six names joined with `_`, written out. */
  lemma {:induction false} JoinSix(a: string, b: string, c: string, d: string, e: string, g: string)
    ensures Join([a, b, c, d, e, g], '_') == a + "_" + b + "_" + c + "_" + d + "_" + e + "_" + g
  {
    var parts := [a, b, c, d, e, g];
    var u := "_";
    var j5 := g;
    var j4 := e + u + j5;
    var j3 := d + u + j4;
    var j2 := c + u + j3;
    var j1 := b + u + j2;
    var j0 := a + u + j1;
    assert Join(parts[5..], '_') == j5;
    assert parts[4..][1..] == parts[5..];
    assert Join(parts[4..], '_') == j4;
    assert parts[3..][1..] == parts[4..];
    assert Join(parts[3..], '_') == j3;
    assert parts[2..][1..] == parts[3..];
    assert Join(parts[2..], '_') == j2;
    assert parts[1..][1..] == parts[2..];
    assert Join(parts[1..], '_') == j1;
    assert Join(parts, '_') == j0;
    assert j0 == a + u + b + u + c + u + d + u + e + u + g;
  }

  // ------------------------------------------- labels in the patient's frame order

  /** The duration of one movie frame, in seconds. */
  const FrameDuration: real := 0.04

  /**
   * The canonical frame a watched time stamp is looked up at: the rounded
   * frame number, one less in the packaged copy.
   */
  function FrameIndex(copy: Copy, pts: real): int
  {
    RoundHalfEven(pts / FrameDuration) - (if copy == Packaged then 1 else 0)
  }

  /** The time stamp of frame `j` is looked up at `j - 1` (packaged) or `j` (legacy). */
  lemma {:induction false} FrameIndexOfFrameTime(copy: Copy, j: int)
    ensures FrameIndex(copy, j as real * FrameDuration) == j - (if copy == Packaged then 1 else 0)
  {
    assert j as real * FrameDuration / FrameDuration == j as real;
  }

  /**
   * `match_label_to_patient_pts_time`: the canonical label looked up at the
   * frame of every watched time stamp, in the order watched; a negative
   * index counts from the end and one past either end is an IndexError.
   */
  function MatchLabel<T>(copy: Copy, canonical: seq<T>, pts: seq<real>): (r: Result<seq<T>>)
    ensures r.Ok? <==> forall k :: 0 <= k < |pts| ==> InRange(FrameIndex(copy, pts[k]), |canonical|)
    ensures r.Ok? ==> |r.value| == |pts|
    ensures r.Ok? ==> forall k :: 0 <= k < |pts| ==> r.value[k] == canonical[Normalize(FrameIndex(copy, pts[k]), |canonical|)]
  {
    if forall k :: 0 <= k < |pts| ==> InRange(FrameIndex(copy, pts[k]), |canonical|) then
      Ok(seq(|pts|, k requires 0 <= k < |pts| => canonical[Normalize(FrameIndex(copy, pts[k]), |canonical|)]))
    else
      Err(IndexOutOfRange)
  }

  /**
   * With frames at 0.04 s, [0.04, 0.04, 0.08] picks the first, first and
   * second entry in the packaged copy and the second, second and third in
   * the legacy one; time 0.0 picks the last entry in the packaged copy.
   */
  lemma {:induction false} MatchLabelExample()
    ensures MatchLabel(Packaged, [10, 20, 30], [0.04, 0.04, 0.08]) == Ok([10, 10, 20])
    ensures MatchLabel(Legacy, [10, 20, 30], [0.04, 0.04, 0.08]) == Ok([20, 20, 30])
    ensures MatchLabel(Packaged, [10, 20, 30], [0.0]) == Ok([30])
  {
    FrameIndexOfFrameTime(Packaged, 1);
    FrameIndexOfFrameTime(Packaged, 2);
    FrameIndexOfFrameTime(Packaged, 0);
    FrameIndexOfFrameTime(Legacy, 1);
    FrameIndexOfFrameTime(Legacy, 2);
    assert 0.08 == 2 as real * FrameDuration;
    assert 0.04 == 1 as real * FrameDuration;
    assert 0.0 == 0 as real * FrameDuration;
    var canonical, pts := [10, 20, 30], [0.04, 0.04, 0.08];
    var p := MatchLabel(Packaged, canonical, pts);
    assert p.Ok? && p.value[0] == 10 && p.value[1] == 10 && p.value[2] == 20;
    assert p.value == [10, 10, 20];
    var l := MatchLabel(Legacy, canonical, pts);
    assert l.Ok? && l.value[0] == 20 && l.value[1] == 20 && l.value[2] == 30;
    assert l.value == [20, 20, 30];
    var z := MatchLabel(Packaged, canonical, [0.0]);
    assert z.Ok? && z.value[0] == 30;
    assert z.value == [30];
  }

  // ------------------------------------------------------------ patient ids

  const PatientIdKey: string := "patient_id"

  /** `get_list_of_patient_ids`: the `patient_id` of every entry, in order; an entry without one is a KeyError. */
  function PatientIds<V>(patients: seq<map<string, V>>): (r: Result<seq<V>>)
    ensures r.Ok? <==> forall i :: 0 <= i < |patients| ==> PatientIdKey in patients[i]
    ensures r.Ok? ==> |r.value| == |patients|
    ensures r.Ok? ==> forall i :: 0 <= i < |patients| ==> r.value[i] == patients[i][PatientIdKey]
  {
    if forall i :: 0 <= i < |patients| ==> PatientIdKey in patients[i] then
      Ok(seq(|patients|, i requires 0 <= i < |patients| => patients[i][PatientIdKey]))
    else
      Err(MissingKey)
  }

  /** The appending loop of the legacy copy. */
  method GetListOfPatientIds<V>(patients: seq<map<string, V>>) returns (r: Result<seq<V>>)
    ensures r == PatientIds(patients)
  {
    var ids := [];
    for i := 0 to |patients|
      invariant |ids| == i
      invariant forall k :: 0 <= k < i ==> PatientIdKey in patients[k] && ids[k] == patients[k][PatientIdKey]
    {
      if PatientIdKey !in patients[i] {
        return Err(MissingKey);
      }
      ids := ids + [patients[i][PatientIdKey]];
    }
    assert ids == PatientIds(patients).value;
    return Ok(ids);
  }
}

/**
 * The character classes and the string operations of Python's `str` that the
 * cty.dat parser relies on: `isalpha`, `isspace`, the regular-expression classes
 * `\d`, `\w` and `[a-zA-Z0-9/]`, `split`, `strip`, `lstrip` and `rstrip`.
 * Only ASCII is modelled.
 */
module Ascii {

  predicate IsDigit(c: char) { '0' <= c <= '9' }

  predicate IsAlpha(c: char) { 'a' <= c <= 'z' || 'A' <= c <= 'Z' }

  /** `str.isspace` on ASCII: space, \t \n \v \f \r and the separators 0x1C-0x1F. */
  predicate IsSpace(c: char) { c == ' ' || '\t' <= c <= '\r' || 28 <= c as int <= 31 }

  /** The regular-expression class `\w` on ASCII. */
  predicate IsWordChar(c: char) { IsAlpha(c) || IsDigit(c) || c == '_' }

  /** The class `[a-zA-Z0-9/]` of callsign-prefix characters. */
  predicate IsPrefixChar(c: char) { IsAlpha(c) || IsDigit(c) || c == '/' }

  predicate AllDigits(s: string) { forall i :: 0 <= i < |s| ==> IsDigit(s[i]) }

  /** The character classes that runs are scanned over. */
  datatype CharClass = Digit | PrefixChar | NonPrefixChar | WordChar | Space | Only(c: char) | AllBut(c: char)

  predicate InClass(c: char, k: CharClass)
  {
    match k
    case Digit => IsDigit(c)
    case PrefixChar => IsPrefixChar(c)
    case NonPrefixChar => !IsPrefixChar(c)
    case WordChar => IsWordChar(c)
    case Space => IsSpace(c)
    case Only(x) => c == x
    case AllBut(x) => c != x
  }

  /** Every character of `s` is in class `k`. */
  predicate AllIn(s: string, k: CharClass)
  {
    forall i :: 0 <= i < |s| ==> InClass(s[i], k)
  }

  /** Splits `s` into its longest leading run of class `k` and what follows the run. */
  function Span(s: string, k: CharClass): (r: (string, string))
    ensures r.0 + r.1 == s
    ensures AllIn(r.0, k)
    ensures r.1 == [] || !InClass(r.1[0], k)
  {
    if s != [] && InClass(s[0], k) then
      var t := Span(s[1..], k);
      assert s == [s[0]] + s[1..];
      AllInCons(s[0], t.0, k);
      ([s[0]] + t.0, t.1)
    else ([], s)
  }

  /** A class character in front of a run of the class extends the run. */
  lemma AllInCons(c: char, run: string, k: CharClass)
    requires InClass(c, k) && AllIn(run, k)
    ensures AllIn([c] + run, k)
  {
    forall i | 0 <= i < |[c] + run|
      ensures InClass(([c] + run)[i], k)
    {
      if i > 0 {
        assert ([c] + run)[i] == run[i - 1];
      }
    }
  }

  /** A run followed by a character outside its class is exactly what `Span` takes. */
  lemma {:induction false} SpanOf(run: string, rest: string, k: CharClass)
    requires AllIn(run, k)
    requires rest == [] || !InClass(rest[0], k)
    ensures Span(run + rest, k) == (run, rest)
  {
    if run != [] {
      assert InClass(run[0], k);
      assert (run + rest)[0] == run[0];
      assert (run + rest)[1..] == run[1..] + rest;
      SpanOf(run[1..], rest, k);
      assert [run[0]] + run[1..] == run;
    } else {
      assert run + rest == rest;
    }
  }

  /** The end of the longest run of characters satisfying `p` that starts at `i`. */
  function SpanEnd(s: string, i: nat, p: CharClass): (j: nat)
    requires i <= |s|
    ensures i <= j <= |s|
    ensures forall k :: i <= k < j ==> InClass(s[k], p)
    ensures j < |s| ==> !InClass(s[j], p)
    decreases |s| - i
  {
    if i < |s| && InClass(s[i], p) then SpanEnd(s, i + 1, p) else i
  }

  /** A maximal run is determined by its two ends. */
  lemma SpanEndIs(s: string, i: nat, j: nat, p: CharClass)
    requires i <= j <= |s|
    requires forall k :: i <= k < j ==> InClass(s[k], p)
    requires j < |s| ==> !InClass(s[j], p)
    ensures SpanEnd(s, i, p) == j
  {
  }

  /** Concatenation of `parts` with `sep` between neighbours: the inverse of `Split`. */
  function Join(parts: seq<string>, sep: char): string
  {
    if |parts| == 0 then ""
    else if |parts| == 1 then parts[0]
    else parts[0] + [sep] + Join(parts[1..], sep)
  }

  /** `s.split(sep)`: every piece is free of `sep` and joining them gives `s` back. */
  function Split(s: string, sep: char): (parts: seq<string>)
    ensures |parts| >= 1
    ensures forall i :: 0 <= i < |parts| ==> sep !in parts[i]
    ensures Join(parts, sep) == s
    decreases |s|
  {
    var j := SpanEnd(s, 0, AllBut(sep));
    if j == |s| then
      assert s[..j] == s;
      [s]
    else
      var rest := Split(s[j + 1..], sep);
      assert s == s[..j] + [sep] + s[j + 1..];
      [s[..j]] + rest
  }

  /** Removes the leading characters satisfying `p` (Python's `lstrip`). */
  function TrimLeft(s: string, p: CharClass): (r: string)
    ensures |r| <= |s| && r == s[|s| - |r|..]
    ensures forall k :: 0 <= k < |s| - |r| ==> InClass(s[k], p)
    ensures r != [] ==> !InClass(r[0], p)
  {
    s[SpanEnd(s, 0, p)..]
  }

  /** Removes the trailing characters satisfying `p` (Python's `rstrip`). */
  function TrimRight(s: string, p: CharClass): (r: string)
    ensures |r| <= |s| && r == s[..|r|]
    ensures forall k :: |r| <= k < |s| ==> InClass(s[k], p)
    ensures r != [] ==> !InClass(r[|r| - 1], p)
    decreases |s|
  {
    if s != [] && InClass(s[|s| - 1], p) then TrimRight(s[..|s| - 1], p) else s
  }

  /** `s.strip()`. */
  function Strip(s: string): string
  {
    TrimRight(TrimLeft(s, Space), Space)
  }

  /** `s.strip(c)`. */
  function StripChar(s: string, c: char): string
  {
    TrimRight(TrimLeft(s, Only(c)), Only(c))
  }

  /** `s.rstrip(c)`. */
  function RStripChar(s: string, c: char): string
  {
    TrimRight(s, Only(c))
  }

  /** `[x.strip() for x in parts]`. */
  function StripEach(parts: seq<string>): (r: seq<string>)
    ensures |r| == |parts|
    ensures forall i :: 0 <= i < |parts| ==> r[i] == Strip(parts[i])
  {
    seq(|parts|, i requires 0 <= i < |parts| => Strip(parts[i]))
  }
}

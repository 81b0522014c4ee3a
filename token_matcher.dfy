/**
 * The override-token pattern `regex_dat` of BigCty, applied with `re.search`:
 *
 *   =?(prefix)(\(cq\))?(\[itu\])?(<lat/long>)?(\{continent\})?(~tz~)?
 *
 * modelled as a pure function from a token to the texts its named groups capture.
 * The leftmost match starts at the first prefix character (an `=` right before it
 * is matched too, but not captured). Each optional group is tried once, in this
 * order, on the text the previous one left; the number patterns inside `<...>` and
 * `~...~` are `[+-]?\d+(?:\.\d+)?`, except that the longitude writes an unescaped
 * `.` and so accepts any character but a newline between its two digit runs.
 */
module TokenMatcher {
  import opened Wrappers
  import opened Ascii
  import Numbers

  /** The captures of one match: the prefix and the texts of the groups that matched. */
  datatype Override = Override(
    prefix: string,
    cq: Option<string>,
    itu: Option<string>,
    latlong: Option<(string, string)>,
    continent: Option<string>,
    tz: Option<string>)

  /** `open`, a non-empty run of class `k`, then `close`, at the start of `s`: the run and the text after `close`. */
  function Bracketed(s: string, open: char, close: char, k: CharClass): Option<(string, string)>
  {
    if s != [] && s[0] == open then
      var t := Span(s[1..], k);
      if t.0 != [] && t.1 != [] && t.1[0] == close then Some((t.0, t.1[1..])) else None
    else None
  }

  /** The separator between the digit runs of a number: `\.`, or the unescaped `.` of the longitude. */
  predicate SeparatorOk(c: char, anySep: bool)
  {
    if anySep then c != '\n' else c == '.'
  }

  /**
   * `[+-]?\d+(?:S\d+)?` directly followed by `term` at the start of `s`: the number
   * text and the text after `term`. The pattern engine tries the fraction first and
   * falls back to the bare digit run.
   */
  function NumberUntil(s: string, term: char, anySep: bool): Option<(string, string)>
  {
    var n := Numbers.SignLength(s);
    var whole := Span(s[n..], Digit);
    var t := whole.1;
    var frac := if t != [] && SeparatorOk(t[0], anySep) then Span(t[1..], Digit) else ([], []);
    if whole.0 == [] then None
    else if t != [] && frac.0 != [] && frac.1 != [] && frac.1[0] == term then
      Some((s[..n] + whole.0 + [t[0]] + frac.0, frac.1[1..]))
    else if t != [] && t[0] == term then Some((s[..n] + whole.0, t[1..]))
    else None
  }

  /** The group `<lat/long>`. */
  function LatLongGroup(s: string): Option<((string, string), string)>
  {
    if s != [] && s[0] == '<' then
      var lat := NumberUntil(s[1..], '/', false);
      if lat.None? then None
      else
        var long := NumberUntil(lat.value.1, '>', true);
        if long.None? then None else Some(((lat.value.0, long.value.0), long.value.1))
    else None
  }

  /** The group `~tz~`. */
  function TzGroup(s: string): Option<(string, string)>
  {
    if s != [] && s[0] == '~' then NumberUntil(s[1..], '~', false) else None
  }

  /** The number of optional groups after the prefix. */
  const GroupCount: nat := 5

  /** `re.search(regex_dat, tok)`: `None` when the token holds no prefix character. */
  function MatchToken(tok: string): (r: Option<Override>)
    ensures r.None? <==> forall i :: 0 <= i < |tok| ==> !IsPrefixChar(tok[i])
    ensures r.Some? ==> r.value.prefix != [] && AllIn(r.value.prefix, PrefixChar)
  {
    var lead := Span(tok, NonPrefixChar);
    assert lead.1 != [] ==> tok[|lead.0|] == lead.1[0];
    if lead.1 == [] then None
    else
      var pre := Span(lead.1, PrefixChar);
      Some(ReadGroups(pre.1, 0, Override(pre.0, None, None, None, None, None)))
  }

  /** What an optional group captured. */
  function Captured<T>(g: Option<(T, string)>): Option<T>
  {
    if g.Some? then Some(g.value.0) else None
  }

  /** The text the next group is tried on: what this group left when it matched, else the same text. */
  function Remaining<T>(g: Option<(T, string)>, s: string): string
  {
    if g.Some? then g.value.1 else s
  }

  /**
   * Tries optional group number `k` (0 `(cq)`, 1 `[itu]`, 2 `<lat/long>`, 3 `{continent}`,
   * 4 `~tz~`) once at the start of `s`: `acc` with that group's capture, and the text left.
   */
  function ReadGroup(s: string, k: nat, acc: Override): (Override, string)
    requires k < GroupCount
  {
    if k == 0 then
      var g := Bracketed(s, '(', ')', Digit);
      (acc.(cq := Captured(g)), Remaining(g, s))
    else if k == 1 then
      var g := Bracketed(s, '[', ']', Digit);
      (acc.(itu := Captured(g)), Remaining(g, s))
    else if k == 2 then
      var g := LatLongGroup(s);
      (acc.(latlong := Captured(g)), Remaining(g, s))
    else if k == 3 then
      var g := Bracketed(s, '{', '}', WordChar);
      (acc.(continent := Captured(g)), Remaining(g, s))
    else
      var g := TzGroup(s);
      (acc.(tz := Captured(g)), Remaining(g, s))
  }

  /** The optional groups from number `k` on, each tried once where the previous one ended. */
  function ReadGroups(s: string, k: nat, acc: Override): (o: Override)
    requires k <= GroupCount
    ensures o.prefix == acc.prefix
    decreases GroupCount - k
  {
    if k == GroupCount then acc
    else
      var r := ReadGroup(s, k, acc);
      ReadGroups(r.1, k + 1, r.0)
  }

  // ---------------------------------------------------------------------------
  // Rendering an override as token text, the inverse of MatchToken

  predicate RunOf(t: string, k: CharClass)
  {
    t != [] && AllIn(t, k)
  }

  /** A number text the pattern accepts: sign, digits, and optionally a separator and digits. */
  predicate NumberText(t: string, anySep: bool)
  {
    var n := Numbers.SignLength(t);
    var w := Span(t[n..], Digit);
    w.0 != [] && (w.1 == [] || (SeparatorOk(w.1[0], anySep) && RunOf(w.1[1..], Digit)))
  }

  /** The captures a well-formed token can produce. */
  predicate WellFormed(o: Override)
  {
    && RunOf(o.prefix, PrefixChar)
    && (o.cq.Some? ==> RunOf(o.cq.value, Digit))
    && (o.itu.Some? ==> RunOf(o.itu.value, Digit))
    && (o.latlong.Some? ==> NumberText(o.latlong.value.0, false) && NumberText(o.latlong.value.1, true))
    && (o.continent.Some? ==> RunOf(o.continent.value, WordChar))
    && (o.tz.Some? ==> NumberText(o.tz.value, false))
  }

  function Group(open: char, g: Option<string>, close: char): string
  {
    if g.Some? then [open] + g.value + [close] else ""
  }

  function LatLongText(g: Option<(string, string)>): string
  {
    if g.Some? then "<" + g.value.0 + "/" + g.value.1 + ">" else ""
  }

  /** The text of optional group number `k` of `o`: empty when `o` lacks it. */
  function GroupText(o: Override, k: nat): string
    requires k < GroupCount
  {
    if k == 0 then Group('(', o.cq, ')')
    else if k == 1 then Group('[', o.itu, ']')
    else if k == 2 then LatLongText(o.latlong)
    else if k == 3 then Group('{', o.continent, '}')
    else Group('~', o.tz, '~')
  }

  /** The groups of `o` from number `k` on, each right after the previous. */
  function Tail(o: Override, k: nat): string
    requires k <= GroupCount
    decreases GroupCount - k
  {
    if k == GroupCount then "" else GroupText(o, k) + Tail(o, k + 1)
  }

  /** The token text an override stands for: its prefix, then its groups in the fixed order. */
  function Render(o: Override): string
  {
    o.prefix + Tail(o, 0)
  }

  /** `o` with its groups from number `k` on not read yet. */
  function Cleared(o: Override, k: nat): Override
  {
    Override(o.prefix,
             if k > 0 then o.cq else None,
             if k > 1 then o.itu else None,
             if k > 2 then o.latlong else None,
             if k > 3 then o.continent else None,
             if k > 4 then o.tz else None)
  }

  /** The character that opens optional group number `k`. */
  function Opener(k: nat): char
    requires k < GroupCount
  {
    if k == 0 then '(' else if k == 1 then '[' else if k == 2 then '<' else if k == 3 then '{' else '~'
  }

  predicate IsOpener(c: char)
  {
    c == '(' || c == '[' || c == '<' || c == '{' || c == '~'
  }

  lemma BracketedOf(open: char, body: string, close: char, rest: string, k: CharClass)
    requires RunOf(body, k) && !InClass(close, k)
    ensures Bracketed([open] + body + [close] + rest, open, close, k) == Some((body, rest))
  {
    var s := [open] + body + [close] + rest;
    assert s[1..] == body + ([close] + rest);
    SpanOf(body, [close] + rest, k);
    assert ([close] + rest)[1..] == rest;
  }

  /** A bracketed group of the rendering is captured exactly when the override has it. */
  lemma GroupOf(open: char, g: Option<string>, close: char, rest: string, k: CharClass)
    requires g.Some? ==> RunOf(g.value, k)
    requires !InClass(close, k)
    requires g.None? ==> rest == [] || rest[0] != open
    ensures Bracketed(Group(open, g, close) + rest, open, close, k) == if g.Some? then Some((g.value, rest)) else None
  {
    if g.Some? {
      BracketedOf(open, g.value, close, rest, k);
    } else {
      assert Group(open, g, close) + rest == rest;
    }
  }

  /** A whole number text followed by `term`. */
  lemma NumberUntilWhole(t: string, term: char, rest: string, anySep: bool)
    requires NumberText(t, anySep) && Span(t[Numbers.SignLength(t)..], Digit).1 == []
    requires !IsDigit(term) && term != '.'
    requires anySep ==> rest == [] || !IsDigit(rest[0])
    ensures NumberUntil(t + [term] + rest, term, anySep) == Some((t, rest))
  {
    var s := t + [term] + rest;
    var n := Numbers.SignLength(t);
    var w := Span(t[n..], Digit);
    assert s[..n] == t[..n] && Numbers.SignLength(s) == n;
    assert s[n..] == w.0 + ([term] + rest);
    SpanOf(w.0, [term] + rest, Digit);
    var u := [term] + rest;
    assert Span(s[n..], Digit) == (w.0, u);
    assert u[0] == term && u[1..] == rest;
    var frac := if u != [] && SeparatorOk(u[0], anySep) then Span(u[1..], Digit) else ([], []);
    if anySep {
      SpanOf([], rest, Digit);
      assert [] + rest == rest;
    }
    assert frac.0 == [];
    assert t == t[..n] + w.0;
  }

  /** A number text with a fraction followed by `term`. */
  lemma NumberUntilFraction(t: string, term: char, rest: string, anySep: bool)
    requires NumberText(t, anySep) && Span(t[Numbers.SignLength(t)..], Digit).1 != []
    requires !IsDigit(term)
    ensures NumberUntil(t + [term] + rest, term, anySep) == Some((t, rest))
  {
    var sign, whole, sep, frac := FractionTextParts(t, anySep);
    NumberUntilParts(sign, whole, sep, frac, term, rest, anySep);
    FractionFollowed(t, sign, whole, sep, frac, [term] + rest);
    assert t + [term] + rest == t + ([term] + rest);
  }

  lemma FractionFollowed(t: string, sign: string, whole: string, sep: char, frac: string, after: string)
    requires t == sign + (whole + ([sep] + frac))
    ensures t + after == sign + (whole + ([sep] + (frac + after)))
  {
  }

  /** A number text with a fraction is a sign, a digit run, a separator and a digit run. */
  lemma FractionTextParts(t: string, anySep: bool) returns (sign: string, whole: string, sep: char, frac: string)
    requires NumberText(t, anySep) && Span(t[Numbers.SignLength(t)..], Digit).1 != []
    ensures sign == [] || sign == ['+'] || sign == ['-']
    ensures RunOf(whole, Digit) && RunOf(frac, Digit)
    ensures SeparatorOk(sep, anySep) && !IsDigit(sep)
    ensures t == sign + (whole + ([sep] + frac))
  {
    var n := Numbers.SignLength(t);
    var w := Span(t[n..], Digit);
    sign, whole, sep, frac := t[..n], w.0, w.1[0], w.1[1..];
    assert n < |t| && t[n..] == w.0 + w.1 by {
      assert w.0 != [];
    }
    assert !IsDigit(sep) by {
      assert !InClass(w.1[0], Digit);
    }
    assert w.1 == [sep] + frac;
    assert t == t[..n] + t[n..];
  }

  /**
   * A sign, a digit run, a separator, a digit run and `term`: `NumberUntil` takes
   * the fraction branch and stops right after `term`.
   */
  lemma NumberUntilParts(sign: string, whole: string, sep: char, frac: string, term: char, rest: string, anySep: bool)
    requires sign == [] || sign == ['+'] || sign == ['-']
    requires RunOf(whole, Digit) && RunOf(frac, Digit)
    requires SeparatorOk(sep, anySep) && !IsDigit(sep) && !IsDigit(term)
    ensures var after := [term] + rest;
      NumberUntil(sign + (whole + ([sep] + (frac + after))), term, anySep)
        == Some((sign + (whole + ([sep] + frac)), rest))
  {
    var after := [term] + rest;
    var u := [sep] + (frac + after);
    var s := sign + (whole + u);
    var n := |sign|;
    assert Numbers.SignLength(s) == n by {
      assert s[0] == if sign == [] then whole[0] else sign[0];
      assert !(whole[0] == '+' || whole[0] == '-') by {
        assert InClass(whole[0], Digit);
      }
    }
    assert s[..n] == sign && s[n..] == whole + u;
    FractionParts(whole, sep, frac, after);
    assert after[0] == term && after[1..] == rest;
    assert sign + whole + [u[0]] + frac == sign + (whole + ([sep] + frac));
  }

  /** Digits, a separator, digits and then text not starting with a digit: each digit scan stops at the next non-digit. */
  lemma FractionParts(whole: string, sep: char, frac: string, after: string)
    requires AllIn(whole, Digit) && !IsDigit(sep) && AllIn(frac, Digit)
    requires after == [] || !IsDigit(after[0])
    ensures var u := [sep] + (frac + after);
      && Span(whole + u, Digit) == (whole, u)
      && u[0] == sep && u[1..] == frac + after
      && Span(u[1..], Digit) == (frac, after)
  {
    var u := [sep] + (frac + after);
    assert u[0] == sep;
    SpanOf(whole, u, Digit);
    assert u[1..] == frac + after;
    SpanOf(frac, after, Digit);
  }

  /** A number text directly followed by `term` is captured whole. */
  lemma NumberUntilOf(t: string, term: char, rest: string, anySep: bool)
    requires NumberText(t, anySep) && !IsDigit(term) && term != '.'
    requires anySep ==> rest == [] || !IsDigit(rest[0])
    ensures NumberUntil(t + [term] + rest, term, anySep) == Some((t, rest))
  {
    if Span(t[Numbers.SignLength(t)..], Digit).1 == [] {
      NumberUntilWhole(t, term, rest, anySep);
    } else {
      NumberUntilFraction(t, term, rest, anySep);
    }
  }

  /** A `<lat/long>` group is captured whole. */
  lemma LatLongOf(lat: string, long: string, rest: string)
    requires NumberText(lat, false) && NumberText(long, true)
    requires rest == [] || !IsDigit(rest[0])
    ensures LatLongGroup("<" + lat + "/" + long + ">" + rest) == Some(((lat, long), rest))
  {
    var s := "<" + lat + "/" + long + ">" + rest;
    assert s[1..] == lat + ['/'] + (long + ">" + rest);
    NumberUntilOf(lat, '/', long + ">" + rest, false);
    assert long + ">" + rest == long + ['>'] + rest;
    NumberUntilOf(long, '>', rest, true);
  }

  lemma LatLongStage(ll: Option<(string, string)>, rest: string)
    requires ll.Some? ==> NumberText(ll.value.0, false) && NumberText(ll.value.1, true)
    requires ll.Some? ==> rest == [] || !IsDigit(rest[0])
    requires ll.None? ==> rest == [] || rest[0] != '<'
    ensures LatLongGroup(LatLongText(ll) + rest) == if ll.Some? then Some((ll.value, rest)) else None
  {
    if ll.Some? {
      LatLongOf(ll.value.0, ll.value.1, rest);
    } else {
      assert LatLongText(ll) + rest == rest;
    }
  }

  lemma TzStage(tz: Option<string>, rest: string)
    requires tz.Some? ==> NumberText(tz.value, false)
    ensures TzGroup(Group('~', tz, '~') + rest) == if tz.Some? then Some((tz.value, rest)) else (if rest != [] && rest[0] == '~' then TzGroup(rest) else None)
  {
    if tz.Some? {
      var s := Group('~', tz, '~') + rest;
      assert s[1..] == tz.value + ['~'] + rest;
      NumberUntilOf(tz.value, '~', rest, false);
    } else {
      assert Group('~', tz, '~') + rest == rest;
    }
  }

  /** A tail starts with the opener of one of its own groups. */
  lemma TailStart(o: Override, k: nat)
    requires k <= GroupCount
    ensures Tail(o, k) == [] || (IsOpener(Tail(o, k)[0]) && forall j :: 0 <= j < k ==> Tail(o, k)[0] != Opener(j))
    decreases GroupCount - k
  {
    if k < GroupCount && GroupText(o, k) == [] {
      TailStart(o, k + 1);
    }
  }

  /**
   * One group of a rendering is read back, and reading goes on right after it;
   * an absent group reads nothing when the text does not start with its opener.
   */
  lemma ReadGroupRender(o: Override, k: nat, rest: string)
    requires k < GroupCount && WellFormed(o)
    requires rest == [] || IsOpener(rest[0])
    requires GroupText(o, k) == [] ==> rest == [] || rest[0] != Opener(k)
    ensures ReadGroup(GroupText(o, k) + rest, k, Cleared(o, k)) == (Cleared(o, k + 1), rest)
  {
    var s := GroupText(o, k) + rest;
    if rest != [] {
      assert !IsDigit(rest[0]);
    }
    if k == 0 {
      GroupOf('(', o.cq, ')', rest, Digit);
      var g := Bracketed(s, '(', ')', Digit);
      assert Captured(g) == o.cq && Remaining(g, s) == rest;
    } else if k == 1 {
      GroupOf('[', o.itu, ']', rest, Digit);
      var g := Bracketed(s, '[', ']', Digit);
      assert Captured(g) == o.itu && Remaining(g, s) == rest;
    } else if k == 2 {
      LatLongStage(o.latlong, rest);
      var g := LatLongGroup(s);
      assert Captured(g) == o.latlong && Remaining(g, s) == rest;
    } else if k == 3 {
      assert !InClass('}', WordChar);
      GroupOf('{', o.continent, '}', rest, WordChar);
      var g := Bracketed(s, '{', '}', WordChar);
      assert Captured(g) == o.continent && Remaining(g, s) == rest;
    } else {
      TzStage(o.tz, rest);
      var g := TzGroup(s);
      assert Captured(g) == o.tz && Remaining(g, s) == rest;
    }
  }

  /** Where group number `k` of a rendering ends, the next group or the trailing text begins. */
  lemma NextStart(o: Override, k: nat, rest: string)
    requires k < GroupCount
    requires rest == [] || IsOpener(rest[0])
    requires forall j :: k <= j < GroupCount && Tail(o, j) == [] ==> rest == [] || rest[0] != Opener(j)
    ensures Tail(o, k) + rest == GroupText(o, k) + (Tail(o, k + 1) + rest)
    ensures var after := Tail(o, k + 1) + rest;
      && (after == [] || IsOpener(after[0]))
      && (GroupText(o, k) == [] ==> after == [] || after[0] != Opener(k))
  {
    var after := Tail(o, k + 1) + rest;
    TailStart(o, k + 1);
    if Tail(o, k + 1) != [] {
      assert after[0] == Tail(o, k + 1)[0];
    } else {
      assert after == rest;
      assert GroupText(o, k) == [] ==> Tail(o, k) == [];
    }
  }

  /**
   * The groups of a rendering are read back one after the other, and the text after
   * them is left unread when no group that could still match there opens it.
   */
  lemma {:induction false} ReadGroupsRender(o: Override, k: nat, rest: string)
    requires k <= GroupCount && WellFormed(o)
    requires rest == [] || IsOpener(rest[0])
    requires forall j :: k <= j < GroupCount && Tail(o, j) == [] ==> rest == [] || rest[0] != Opener(j)
    ensures ReadGroups(Tail(o, k) + rest, k, Cleared(o, k)) == o
    decreases GroupCount - k
  {
    if k < GroupCount {
      NextStart(o, k, rest);
      ReadGroupRender(o, k, Tail(o, k + 1) + rest);
      ReadGroupsRender(o, k + 1, rest);
    } else {
      assert Cleared(o, k) == o;
    }
  }

  lemma Regroup(a: string, b: string, c: string, d: string)
    ensures a + (b + c) + d == a + (b + (c + d))
  {
  }

  /** The scan for the prefix stops where the text after it begins. */
  lemma PrefixScan(lead: string, prefix: string, groups: string)
    requires forall i :: 0 <= i < |lead| ==> !IsPrefixChar(lead[i])
    requires RunOf(prefix, PrefixChar)
    requires groups == [] || !IsPrefixChar(groups[0])
    ensures Span(lead + (prefix + groups), NonPrefixChar) == (lead, prefix + groups)
    ensures Span(prefix + groups, PrefixChar) == (prefix, groups)
  {
    assert (prefix + groups)[0] == prefix[0];
    SpanOf(lead, prefix + groups, NonPrefixChar);
    SpanOf(prefix, groups, PrefixChar);
  }

  /**
   * Matching inverts rendering: a well-formed override written out after any text
   * without prefix characters (such as the `=` of an exact callsign) is read back
   * group for group. What follows it is ignored when it is empty or starts with a
   * group opener that none of the groups after the last one present would take.
   */
  lemma MatchRender(lead: string, o: Override, rest: string)
    requires WellFormed(o)
    requires forall i :: 0 <= i < |lead| ==> !IsPrefixChar(lead[i])
    requires rest == [] || IsOpener(rest[0])
    requires forall j :: 0 <= j < GroupCount && Tail(o, j) == [] ==> rest == [] || rest[0] != Opener(j)
    ensures MatchToken(lead + Render(o) + rest) == Some(o)
  {
    var groups := Tail(o, 0) + rest;
    GroupsStart(o, rest);
    Regroup(lead, o.prefix, Tail(o, 0), rest);
    MatchOfParts(lead, o.prefix, groups);
    ReadGroupsRender(o, 0, rest);
    assert Cleared(o, 0) == Override(o.prefix, None, None, None, None, None);
  }

  /** The groups of a rendering, and the text after them, do not start with a prefix character. */
  lemma GroupsStart(o: Override, rest: string)
    requires rest == [] || IsOpener(rest[0])
    ensures var groups := Tail(o, 0) + rest; groups == [] || !IsPrefixChar(groups[0])
  {
    TailStart(o, 0);
    var t := Tail(o, 0);
    var groups := t + rest;
    if t != [] {
      assert groups[0] == t[0] && IsOpener(t[0]);
      OpenerNotPrefix(t[0]);
    } else {
      assert groups == rest;
      if rest != [] {
        OpenerNotPrefix(rest[0]);
      }
    }
  }

  lemma OpenerNotPrefix(c: char)
    requires IsOpener(c)
    ensures !IsPrefixChar(c)
  {
  }

  /** A token made of non-prefix characters, a prefix run and then text not starting with a prefix character. */
  lemma MatchOfParts(lead: string, prefix: string, groups: string)
    requires forall i :: 0 <= i < |lead| ==> !IsPrefixChar(lead[i])
    requires RunOf(prefix, PrefixChar)
    requires groups == [] || !IsPrefixChar(groups[0])
    ensures MatchToken(lead + (prefix + groups)) == Some(ReadGroups(groups, 0, Override(prefix, None, None, None, None, None)))
  {
    PrefixScan(lead, prefix, groups);
  }

  /** The rendering of an override with only an `[itu]` group. */
  lemma ItuOnlyRender(p: string, itu: string, rest: string)
    ensures var o := Override(p, None, Some(itu), None, None, None);
      && p + ("[" + itu + "]") + rest == [] + Render(o) + rest
      && Tail(o, 0) != [] && Tail(o, 1) != []
      && Tail(o, 2) == [] && Tail(o, 3) == [] && Tail(o, 4) == []
  {
    var o := Override(p, None, Some(itu), None, None, None);
    var text := "[" + itu + "]";
    assert Tail(o, 2) == [];
    assert Tail(o, 1) == text + [];
    assert Tail(o, 0) == text;
    assert Render(o) == p + text;
  }

  /** Groups out of order: a `(cq)` written after `[itu]` is not captured. */
  lemma MisorderedGroups(p: string, itu: string, cq: string)
    requires RunOf(p, PrefixChar) && RunOf(itu, Digit) && RunOf(cq, Digit)
    ensures MatchToken(p + ("[" + itu + "]") + ("(" + cq + ")")) == Some(Override(p, None, Some(itu), None, None, None))
  {
    var o := Override(p, None, Some(itu), None, None, None);
    var rest := "(" + cq + ")";
    ItuOnlyRender(p, itu, rest);
    MatchRender([], o, rest);
  }

  /** The `=` of an exact-callsign token is not part of the captured prefix, and `/` is. */
  lemma ExactCallsignToken()
    ensures MatchToken("=II0GDF/9") == Some(Override("II0GDF/9", None, None, None, None, None))
  {
    var o := Override("II0GDF/9", None, None, None, None, None);
    assert Render(o) == "II0GDF/9";
    assert "=II0GDF/9" == "=" + Render(o) + [];
    MatchRender("=", o, []);
  }

  /** Digit runs around any character but a newline make a longitude text. */
  lemma LongitudeText(a: string, c: char, b: string)
    requires RunOf(a, Digit) && RunOf(b, Digit) && c != '\n'
    ensures NumberText(a + [c] + b, true)
  {
    var long := a + [c] + b;
    assert long[0] == a[0];
    if IsDigit(c) {
      assert AllIn(long, Digit);
      SpanOf(long, [], Digit);
      assert long + [] == long;
    } else {
      assert long == a + ([c] + b);
      SpanOf(a, [c] + b, Digit);
      assert ([c] + b)[1..] == b;
    }
  }

  /** The rendering of an override with only a `<lat/long>` group. */
  lemma LatLongOnlyRender(p: string, lat: string, long: string)
    ensures var o := Override(p, None, None, Some((lat, long)), None, None);
      p + ("<" + lat + "/" + long + ">") == [] + Render(o) + []
  {
    var o := Override(p, None, None, Some((lat, long)), None, None);
    var text := "<" + lat + "/" + long + ">";
    assert Tail(o, 3) == [];
    assert Tail(o, 2) == text + [];
    assert Tail(o, 0) == text;
    assert Render(o) == p + text;
  }

  /** The unescaped `.` of the longitude pattern lets any character but a newline separate its digit runs. */
  lemma LongitudeAnySeparator(p: string, lat: string, a: string, c: char, b: string)
    requires RunOf(p, PrefixChar) && NumberText(lat, false)
    requires RunOf(a, Digit) && RunOf(b, Digit) && c != '\n'
    ensures MatchToken(p + ("<" + lat + "/" + (a + [c] + b) + ">")) == Some(Override(p, None, None, Some((lat, a + [c] + b)), None, None))
  {
    var long := a + [c] + b;
    LongitudeText(a, c, b);
    LatLongOnlyRender(p, lat, long);
    MatchRender([], Override(p, None, None, Some((lat, long)), None, None), []);
  }

  /** A token made of prefix characters only is its own prefix and carries no group. */
  lemma BareToken(t: string)
    requires RunOf(t, PrefixChar)
    ensures MatchToken(t) == Some(Override(t, None, None, None, None, None))
  {
    var o := Override(t, None, None, None, None, None);
    assert Tail(o, 0) == [];
    assert t == [] + Render(o) + [];
    MatchRender([], o, []);
  }

  /** The zone overrides of `AA0(4)[7]`: CQ zone 4, ITU zone 7, nothing else. */
  lemma ZoneOverrideToken()
    ensures MatchToken("AA0(4)[7]") == Some(Override("AA0", Some("4"), Some("7"), None, None, None))
  {
    var o := Override("AA0", Some("4"), Some("7"), None, None, None);
    assert Tail(o, 2) == [];
    assert Tail(o, 1) == "[7]";
    assert Tail(o, 0) == "(4)[7]";
    assert "AA0(4)[7]" == [] + Render(o) + [];
    MatchRender([], o, []);
  }
}

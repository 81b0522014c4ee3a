/**
 * What `BigCty.import_dat` computes, as a function of the file text.
 *
 * The dictionary the source builds binds prefixes to record objects, and several
 * prefixes can be bound to the same object: an override token updates the record
 * of the current primary entry in place and binds its own prefix to that record.
 * The value model here keeps that sharing explicit: `owner` maps each prefix to
 * the number of its record, and `recs` holds the records.
 */
module DatImport {
  import opened Wrappers
  import opened Ascii
  import opened Numbers
  import opened TokenMatcher

  /** The eight fields of a record. `lat`, `long` and `tz` are Python floats, modelled as reals. */
  datatype Fields = Fields(
    entity: string,
    cq: int,
    itu: int,
    continent: string,
    lat: real,
    long: real,
    tz: real,
    len: nat)

  /**
   * The exceptions an import can end with: `IndexError` for a primary line without
   * an eighth field, `ValueError` for a number `int` or `float` refuses, and
   * `KeyError` for an override token read before any primary line.
   */
  datatype ImportError = MissingField | BadNumber | NoCurrentEntity

  /** The dictionary under construction, and the key of the last primary line (`last`). */
  datatype State = State(owner: map<string, nat>, recs: seq<Fields>, last: string)

  ghost predicate Valid(st: State)
  {
    forall k :: k in st.owner ==> st.owner[k] < |st.recs|
  }

  /** An empty dictionary, with `last` still `''`. */
  const Start: State := State(map[], [], "")

  // ---------------------------------------------------------------------------
  // Primary lines

  /** The colon-separated fields of a line, each stripped of surrounding whitespace. */
  function Segments(line: string): (segs: seq<string>)
    ensures |segs| == |Split(line, ':')| >= 1
    ensures forall i :: 0 <= i < |segs| ==> ':' !in segs[i]
    ensures forall i :: 0 <= i < |segs| ==> segs[i] == Strip(Split(line, ':')[i])
  {
    StripEach(Split(line, ':'))
  }

  /**
   * A primary line `entity: cq: itu: continent: lat: long: tz: prefix:`, given as its
   * stripped colon-separated fields: the prefix and its record. Fewer than eight
   * fields or an empty eighth field is an `IndexError`, a field `int` or `float`
   * refuses a `ValueError`. A leading `*` marks a prefix that is not a DXCC entity;
   * it is dropped from the key and noted in the entity name. `tz` is stored negated,
   * and `len` is the length of the key.
   */
  function PrimaryRecord(segs: seq<string>): (r: Result<(string, Fields), ImportError>)
    ensures r.Success? <==>
      && |segs| >= 8 && segs[7] != []
      && ParseInt(segs[1]).Some? && ParseInt(segs[2]).Some?
      && ParseFloat(segs[4]).Some? && ParseFloat(segs[5]).Some? && ParseFloat(segs[6]).Some?
    ensures r.Failure? ==> r.error == MissingField || r.error == BadNumber
    ensures r == Failure(MissingField) <==> |segs| < 8 || segs[7] == []
    ensures r == Failure(BadNumber) <==>
      && |segs| >= 8 && segs[7] != []
      && (|| ParseInt(segs[1]).None? || ParseInt(segs[2]).None?
          || ParseFloat(segs[4]).None? || ParseFloat(segs[5]).None? || ParseFloat(segs[6]).None?)
    ensures r.Success? ==> r.value.1.len == |r.value.0|
    ensures r.Success? ==>
      var f := r.value.1;
      && (if segs[7][0] == '*'
          then segs[7] == "*" + r.value.0 && f.entity == segs[0] + " (not DXCC)"
          else segs[7] == r.value.0 && f.entity == segs[0])
      && Some(f.cq) == ParseInt(segs[1]) && Some(f.itu) == ParseInt(segs[2])
      && f.continent == segs[3]
      && Some(f.lat) == ParseFloat(segs[4]) && Some(f.long) == ParseFloat(segs[5])
      && Some(-f.tz) == ParseFloat(segs[6])
  {
    if |segs| < 8 || segs[7] == [] then Failure(MissingField)
    else
      var starred := segs[7][0] == '*';
      var key := if starred then segs[7][1..] else segs[7];
      var entity := if starred then segs[0] + " (not DXCC)" else segs[0];
      var cq := ParseInt(segs[1]);
      var itu := ParseInt(segs[2]);
      var lat := ParseFloat(segs[4]);
      var long := ParseFloat(segs[5]);
      var tz := ParseFloat(segs[6]);
      if cq.None? || itu.None? || lat.None? || long.None? || tz.None? then Failure(BadNumber)
      else
        assert starred ==> segs[7] == "*" + key;
        Success((key, Fields(entity, cq.value, itu.value, segs[3], lat.value, long.value, -tz.value, |key|)))
  }

  /** A primary line: its key and record, read from its stripped colon-separated fields. */
  function ParsePrimary(line: string): (r: Result<(string, Fields), ImportError>)
    ensures r.Success? ==> ':' !in r.value.0 && r.value.1.len == |r.value.0|
  {
    PrimaryRecord(Segments(line))
  }

  /** A primary line binds its key to a new record and makes it the current entry. */
  function AddPrimary(st: State, key: string, f: Fields): (r: State)
    requires Valid(st)
    ensures Valid(r) && r.last == key
    ensures r.owner.Keys == st.owner.Keys + {key} && r.recs[r.owner[key]] == f
    ensures forall k :: k in st.owner ==> r.owner[key] != st.owner[k]
    ensures forall k :: k in st.owner && k != key ==> r.owner[k] == st.owner[k]
    ensures |r.recs| == |st.recs| + 1 && forall i :: 0 <= i < |st.recs| ==> r.recs[i] == st.recs[i]
  {
    State(st.owner[key := |st.recs|], st.recs + [f], key)
  }

  // ---------------------------------------------------------------------------
  // Override tokens

  /** The value of a group's text converted by `convert`, or `current` when the group is absent. */
  function Converted<T>(g: Option<string>, convert: string -> Option<T>, current: T): Option<T>
  {
    if g.Some? then convert(g.value) else Some(current)
  }

  function Negated(x: Option<real>): Option<real>
  {
    if x.Some? then Some(-x.value) else None
  }

  /**
   * The record of the current entry after an override: each field the token
   * carries replaces the current value (`tz` negated), every other field is
   * kept, and `float` refusing a text fails the import.
   */
  function ApplyOverride(f: Fields, o: Override): (r: Result<Fields, ImportError>)
    ensures r.Failure? <==>
      || (o.itu.Some? && ParseInt(o.itu.value).None?)
      || (o.cq.Some? && ParseInt(o.cq.value).None?)
      || (o.latlong.Some? && (ParseFloat(o.latlong.value.0).None? || ParseFloat(o.latlong.value.1).None?))
      || (o.tz.Some? && ParseFloat(o.tz.value).None?)
    ensures r.Failure? ==> r.error == BadNumber
    ensures r.Success? ==> r.value.entity == f.entity && r.value.len == f.len
    ensures r.Success? ==> r.value.cq == (if o.cq.Some? then ParseInt(o.cq.value).value else f.cq)
    ensures r.Success? ==> r.value.itu == (if o.itu.Some? then ParseInt(o.itu.value).value else f.itu)
    ensures r.Success? ==> r.value.continent == (if o.continent.Some? then o.continent.value else f.continent)
    ensures r.Success? && o.latlong.Some? ==> Some(r.value.lat) == ParseFloat(o.latlong.value.0) && Some(r.value.long) == ParseFloat(o.latlong.value.1)
    ensures r.Success? && o.latlong.None? ==> r.value.lat == f.lat && r.value.long == f.long
    ensures r.Success? ==> r.value.tz == (if o.tz.Some? then -ParseFloat(o.tz.value).value else f.tz)
  {
    var itu := Converted(o.itu, ParseInt, f.itu);
    var cq := Converted(o.cq, ParseInt, f.cq);
    var lat := if o.latlong.Some? then ParseFloat(o.latlong.value.0) else Some(f.lat);
    var long := if o.latlong.Some? then ParseFloat(o.latlong.value.1) else Some(f.long);
    var tz := if o.tz.Some? then Negated(ParseFloat(o.tz.value)) else Some(f.tz);
    if itu.None? || cq.None? || lat.None? || long.None? || tz.None? then Failure(BadNumber)
    else
      var continent := if o.continent.Some? then o.continent.value else f.continent;
      Success(f.(itu := itu.value, cq := cq.value, lat := lat.value, long := long.value,
                 continent := continent, tz := tz.value))
  }

  /**
   * One token of a continuation line. A token that is already a key, as written,
   * is skipped. Otherwise the current entry is looked up first (a `KeyError` when
   * there is none), a token the pattern does not match is skipped, and a match
   * updates the current record and binds its prefix to that same record.
   */
  function ApplyToken(st: State, item: string): (r: Result<State, ImportError>)
    requires Valid(st)
    ensures r.Success? ==> Valid(r.value) && r.value.last == st.last && |r.value.recs| == |st.recs|
    ensures item in st.owner ==> r == Success(st)
    ensures r == Failure(NoCurrentEntity) <==> item !in st.owner && st.last !in st.owner
    ensures item !in st.owner && st.last in st.owner && MatchToken(item).Some? ==>
      (r.Failure? <==> ApplyOverride(st.recs[st.owner[st.last]], MatchToken(item).value).Failure?)
    ensures r.Failure? ==> r.error == NoCurrentEntity || r.error == BadNumber
    ensures r.Success? ==> st.owner.Keys <= r.value.owner.Keys
  {
    if item in st.owner then Success(st)
    else if st.last !in st.owner then Failure(NoCurrentEntity)
    else
      var id := st.owner[st.last];
      var m := MatchToken(item);
      if m.None? then Success(st)
      else
        var f := ApplyOverride(st.recs[id], m.value);
        if f.Failure? then Failure(f.error)
        else Success(State(st.owner[m.value.prefix := id], st.recs[id := f.value], st.last))
  }

  /** The tokens of a continuation line, left to right, stopping at the first failure. */
  function ApplyTokens(st: State, items: seq<string>): (r: Result<State, ImportError>)
    requires Valid(st)
    ensures r.Success? ==> Valid(r.value) && r.value.last == st.last && |r.value.recs| == |st.recs|
    ensures r.Success? ==> st.owner.Keys <= r.value.owner.Keys
    ensures r.Failure? ==> r.error == NoCurrentEntity || r.error == BadNumber
    decreases |items|
  {
    if items == [] then Success(st)
    else
      var s := ApplyToken(st, items[0]);
      if s.Failure? then s else ApplyTokens(s.value, items[1..])
  }

  /** The comma-separated tokens of a continuation line, after the final `;` and `,` are dropped. */
  function OverrideTokens(line: string): (items: seq<string>)
    ensures |items| >= 1
    ensures forall i :: 0 <= i < |items| ==> ',' !in items[i]
    ensures Join(items, ',') == RStripChar(RStripChar(Strip(line), ';'), ',')
  {
    Split(RStripChar(RStripChar(Strip(line), ';'), ','), ',')
  }

  // ---------------------------------------------------------------------------
  // Lines and the file

  /**
   * One line of the loop: a line starting with a letter is a primary line, one
   * starting with whitespace a continuation line, and any other line is ignored.
   */
  function StepLine(st: State, line: string): (r: Result<State, ImportError>)
    requires Valid(st) && line != []
    ensures r.Success? ==> Valid(r.value) && st.owner.Keys <= r.value.owner.Keys
    ensures !IsAlpha(line[0]) && !IsSpace(line[0]) ==> r == Success(st)
  {
    if IsAlpha(line[0]) then
      var p := ParsePrimary(line);
      if p.Failure? then Failure(p.error) else Success(AddPrimary(st, p.value.0, p.value.1))
    else if IsSpace(line[0]) then ApplyTokens(st, OverrideTokens(line))
    else Success(st)
  }

  /**
   * The three kinds of line: a primary line fails as its fields do or adds its
   * entry, a continuation line applies its tokens, and any other line changes nothing.
   */
  lemma StepLineCases(st: State, line: string)
    requires Valid(st) && line != []
    ensures IsAlpha(line[0]) ==> (StepLine(st, line).Failure? <==> ParsePrimary(line).Failure?)
    ensures IsAlpha(line[0]) && ParsePrimary(line).Failure? ==> StepLine(st, line) == Failure(ParsePrimary(line).error)
    ensures IsAlpha(line[0]) && ParsePrimary(line).Success? ==>
      StepLine(st, line) == Success(AddPrimary(st, ParsePrimary(line).value.0, ParsePrimary(line).value.1))
    ensures IsSpace(line[0]) ==> StepLine(st, line) == ApplyTokens(st, OverrideTokens(line))
    ensures !IsAlpha(line[0]) && !IsSpace(line[0]) ==> StepLine(st, line) == Success(st)
  {
  }

  /** `readline`: the text up to and including the first newline, and the text after it. */
  function NextChunk(text: string): (r: (string, string))
    ensures r.0 + r.1 == text
    ensures text != [] ==> r.0 != []
    ensures r.0 != [] && r.1 != [] ==> r.0[|r.0| - 1] == '\n'
    ensures forall i :: 0 <= i < |r.0| - 1 ==> r.0[i] != '\n'
  {
    var s := Span(text, AllBut('\n'));
    if s.1 == [] then (text, [])
    else
      assert text == s.0 + [s.1[0]] + s.1[1..];
      (s.0 + ['\n'], s.1[1..])
  }

  /** A line as the loop sees it: a trailing carriage return dropped, then colons at both ends. */
  function CleanLine(chunk: string): (line: string)
    ensures |line| <= |chunk|
    ensures line != [] ==> line[0] != ':' && line[|line| - 1] != ':'
  {
    StripChar(RStripChar(chunk, '\r'), ':')
  }

  /** The loop from state `st` over the remaining text: it ends at the end of the text or at a line that cleans to nothing. */
  function ImportFrom(st: State, text: string): (r: Result<State, ImportError>)
    requires Valid(st)
    ensures r.Success? ==> Valid(r.value)
    decreases |text|
  {
    var c := NextChunk(text);
    var line := CleanLine(c.0);
    if line == [] then Success(st)
    else
      var s := StepLine(st, line);
      if s.Failure? then s else ImportFrom(s.value, c.1)
  }

  /** The dictionary `import_dat` builds from a whole file, or the exception it raises. */
  function Import(text: string): (r: Result<State, ImportError>)
    ensures r.Success? ==> Valid(r.value)
  {
    ImportFrom(Start, text)
  }

  // ---------------------------------------------------------------------------
  // What a block of continuation lines does to the current record

  /** The fields an override token can set. */
  datatype Field = CqField | ItuField | LatLongField | ContinentField | TzField

  /** The value of one settable field; latitude and longitude are set together. */
  datatype FieldValue = Zone(zone: int) | Place(lat: real, long: real) | Name(name: string) | Offset(hours: real)

  function FieldOf(f: Fields, fld: Field): FieldValue
  {
    match fld
    case CqField => Zone(f.cq)
    case ItuField => Zone(f.itu)
    case LatLongField => Place(f.lat, f.long)
    case ContinentField => Name(f.continent)
    case TzField => Offset(f.tz)
  }

  /** The token's match has the group that sets `fld`. */
  predicate Carries(o: Override, fld: Field)
  {
    match fld
    case CqField => o.cq.Some?
    case ItuField => o.itu.Some?
    case LatLongField => o.latlong.Some?
    case ContinentField => o.continent.Some?
    case TzField => o.tz.Some?
  }

  /** The value a group writes into the record (a time zone negated), or `None` when its text does not convert. */
  function GroupValue(o: Override, fld: Field): Option<FieldValue>
    requires Carries(o, fld)
  {
    match fld
    case CqField => if ParseInt(o.cq.value).Some? then Some(Zone(ParseInt(o.cq.value).value)) else None
    case ItuField => if ParseInt(o.itu.value).Some? then Some(Zone(ParseInt(o.itu.value).value)) else None
    case LatLongField =>
      var lat := ParseFloat(o.latlong.value.0);
      var long := ParseFloat(o.latlong.value.1);
      if lat.Some? && long.Some? then Some(Place(lat.value, long.value)) else None
    case ContinentField => Some(Name(o.continent.value))
    case TzField => if ParseFloat(o.tz.value).Some? then Some(Offset(-ParseFloat(o.tz.value).value)) else None
  }

  /** An override sets each field its token carries, and leaves every other field as it was. */
  lemma OverrideField(f: Fields, o: Override, fld: Field)
    requires ApplyOverride(f, o).Success?
    ensures Carries(o, fld) ==> GroupValue(o, fld).Some?
    ensures FieldOf(ApplyOverride(f, o).value, fld) == if Carries(o, fld) then GroupValue(o, fld).value else FieldOf(f, fld)
  {
  }

  /** A token with a group contains a character that no prefix has, so it never equals a prefix. */
  lemma CarrierNotBare(t: string, fld: Field)
    requires MatchToken(t).Some? && Carries(MatchToken(t).value, fld)
    ensures !AllIn(t, PrefixChar)
  {
    if AllIn(t, PrefixChar) {
      BareToken(t);
    }
  }

  /**
   * An override token binds its prefix to the record of the current entry and
   * updates that record itself: no other record changes, and no other key moves.
   */
  lemma TokenSharesRecord(st: State, item: string)
    requires Valid(st) && st.last in st.owner && item !in st.owner
    requires MatchToken(item).Some? && ApplyToken(st, item).Success?
    ensures var id := st.owner[st.last];
      var o := MatchToken(item).value;
      var r := ApplyToken(st, item).value;
      && r.owner.Keys == st.owner.Keys + {o.prefix}
      && r.owner[o.prefix] == id && r.owner[st.last] == id
      && (forall k :: k in st.owner && k != o.prefix ==> r.owner[k] == st.owner[k])
      && ApplyOverride(st.recs[id], o) == Success(r.recs[id])
      && (forall i :: 0 <= i < |st.recs| && i != id ==> r.recs[i] == st.recs[i])
  {
  }

  /** `int` of a single digit. */
  lemma ParseDigit(c: char)
    requires IsDigit(c)
    ensures ParseInt([c]) == Some(DigitValue(c))
  {
    assert SignLength([c]) == 0;
    assert [c][0..] == [c];
    assert [c][..0] == [];
    assert DigitsValue([c]) == DigitsValue([]) * 10 + DigitValue(c);
  }

  /** The captures of `AA0(4)[7]` set the CQ zone to 4 and the ITU zone to 7, and nothing else. */
  lemma ZoneCapturesApply(f: Fields)
    ensures ApplyOverride(f, Override("AA0", Some("4"), Some("7"), None, None, None)) == Success(f.(cq := 4, itu := 7))
  {
    ParseDigit('4');
    ParseDigit('7');
    assert "4" == ['4'] && "7" == ['7'];
  }

  /** `AA0(4)[7]` sets the CQ zone to 4 and the ITU zone to 7 and leaves every other field as it was. */
  lemma ZoneOverrideExample(f: Fields)
    ensures MatchToken("AA0(4)[7]").Some?
    ensures ApplyOverride(f, MatchToken("AA0(4)[7]").value) == Success(f.(cq := 4, itu := 7))
  {
    ZoneOverrideToken();
    ZoneCapturesApply(f);
  }

  /** A token without any prefix character changes nothing, once there is a current entry. */
  lemma TokenWithoutPrefixSkipped(st: State, item: string)
    requires Valid(st) && st.last in st.owner
    requires forall i :: 0 <= i < |item| ==> !IsPrefixChar(item[i])
    ensures ApplyToken(st, item) == Success(st)
  {
  }

  /**
   * An exact-callsign token `=P` is caught by the duplicate check only when a
   * primary line used `=P` itself as its key. Otherwise `P` is bound to the current
   * record even when an earlier line, of any entry, bound it already; the record
   * itself is unchanged.
   */
  lemma ExactTokenRebinds(st: State, p: string)
    requires Valid(st) && st.last in st.owner && ("=" + p) !in st.owner
    requires RunOf(p, PrefixChar)
    ensures ApplyToken(st, "=" + p) == Success(st.(owner := st.owner[p := st.owner[st.last]]))
  {
    var o := Override(p, None, None, None, None, None);
    assert Tail(o, 0) == [];
    assert "=" + p == "=" + Render(o) + [];
    MatchRender("=", o, []);
    var id := st.owner[st.last];
    assert ApplyOverride(st.recs[id], o) == Success(st.recs[id]);
    assert st.recs[id := st.recs[id]] == st.recs;
  }

  /**
   * A block of continuation tokens read while `st.last` is the current entry: the
   * current key keeps its record, every key it binds or rebinds is bound to that
   * record, every key it leaves alone keeps its binding, and no other record changes.
   * Each matched token that was not a key before the block ends up sharing the record.
   */
  lemma {:induction false} BlockSharesRecord(st: State, items: seq<string>)
    requires Valid(st) && st.last in st.owner && ApplyTokens(st, items).Success?
    ensures var r := ApplyTokens(st, items).value;
      var id := st.owner[st.last];
      && st.owner.Keys <= r.owner.Keys
      && r.owner[st.last] == id
      && (forall k :: k in r.owner ==> (k in st.owner && r.owner[k] == st.owner[k]) || r.owner[k] == id)
      && (forall i :: 0 <= i < |st.recs| && i != id ==> r.recs[i] == st.recs[i])
      && (forall j :: 0 <= j < |items| && items[j] !in st.owner && MatchToken(items[j]).Some? ==>
            MatchToken(items[j]).value.prefix in r.owner && r.owner[MatchToken(items[j]).value.prefix] == id)
    decreases |items|
  {
    if items != [] {
      var id := st.owner[st.last];
      var s1 := ApplyToken(st, items[0]).value;
      var m0 := MatchToken(items[0]);
      if items[0] !in st.owner && m0.Some? {
        TokenSharesRecord(st, items[0]);
      }
      assert s1.owner[s1.last] == id;
      BlockSharesRecord(s1, items[1..]);
      var r := ApplyTokens(st, items).value;
      assert r == ApplyTokens(s1, items[1..]).value;
      forall j | 0 <= j < |items| && items[j] !in st.owner && MatchToken(items[j]).Some?
        ensures MatchToken(items[j]).value.prefix in r.owner && r.owner[MatchToken(items[j]).value.prefix] == id
      {
        if j > 0 {
          assert items[j] == items[1..][j - 1];
          if items[j] in s1.owner {
            // Bound by the first token of the block, whose prefix it is.
            assert items[j] == m0.value.prefix && s1.owner[items[j]] == id;
            BareToken(items[j]);
          }
        }
      }
    }
  }

  /** A block in which no token carries a field leaves that field of the current record as it was. */
  lemma {:induction false} BlockKeepsField(st: State, items: seq<string>, fld: Field)
    requires Valid(st) && st.last in st.owner && ApplyTokens(st, items).Success?
    requires forall j :: 0 <= j < |items| && MatchToken(items[j]).Some? ==> !Carries(MatchToken(items[j]).value, fld)
    ensures var r := ApplyTokens(st, items).value;
      FieldOf(r.recs[st.owner[st.last]], fld) == FieldOf(st.recs[st.owner[st.last]], fld)
    decreases |items|
  {
    if items != [] {
      var s1 := ApplyToken(st, items[0]).value;
      var m0 := MatchToken(items[0]);
      if items[0] !in st.owner && m0.Some? {
        TokenSharesRecord(st, items[0]);
        OverrideField(st.recs[st.owner[st.last]], m0.value, fld);
      }
      forall j | 0 <= j < |items[1..]| && MatchToken(items[1..][j]).Some?
        ensures !Carries(MatchToken(items[1..][j]).value, fld)
      {
        assert items[1..][j] == items[j + 1];
      }
      BlockKeepsField(s1, items[1..], fld);
    }
  }

  /**
   * No token carries the entity name or the key length: after a block the current
   * record still names the primary line's entity and holds the length of the
   * primary key, which is the length every key sharing the record reports.
   */
  lemma {:induction false} BlockKeepsNameAndLen(st: State, items: seq<string>)
    requires Valid(st) && st.last in st.owner && ApplyTokens(st, items).Success?
    ensures var r := ApplyTokens(st, items).value;
      var id := st.owner[st.last];
      r.recs[id].entity == st.recs[id].entity && r.recs[id].len == st.recs[id].len
    decreases |items|
  {
    if items != [] {
      var s1 := ApplyToken(st, items[0]).value;
      if items[0] !in st.owner && MatchToken(items[0]).Some? {
        TokenSharesRecord(st, items[0]);
      }
      BlockKeepsNameAndLen(s1, items[1..]);
    }
  }

  /** The first token of a block, when it is applied and carries `fld`, writes its value into the current record. */
  lemma FirstTokenSets(st: State, item: string, fld: Field)
    requires Valid(st) && st.last in st.owner && item !in st.owner
    requires MatchToken(item).Some? && Carries(MatchToken(item).value, fld)
    requires ApplyToken(st, item).Success?
    ensures GroupValue(MatchToken(item).value, fld).Some?
    ensures var s1 := ApplyToken(st, item).value;
      st.last in s1.owner && s1.owner[st.last] == st.owner[st.last]
      && FieldOf(s1.recs[st.owner[st.last]], fld) == GroupValue(MatchToken(item).value, fld).value
  {
    TokenSharesRecord(st, item);
    OverrideField(st.recs[st.owner[st.last]], MatchToken(item).value, fld);
  }

  /** A token carrying a group that was not a key before a token is still not one after it. */
  lemma CarrierStaysUnbound(st: State, first: string, t: string, fld: Field)
    requires Valid(st) && st.last in st.owner && ApplyToken(st, first).Success?
    requires t !in st.owner && MatchToken(t).Some? && Carries(MatchToken(t).value, fld)
    ensures t !in ApplyToken(st, first).value.owner
    ensures var s1 := ApplyToken(st, first).value;
      st.last in s1.owner && s1.owner[st.last] == st.owner[st.last]
  {
    CarrierNotBare(t, fld);
    if first !in st.owner && MatchToken(first).Some? {
      TokenSharesRecord(st, first);
    }
  }

  /** A block that applies cleanly applies its first token cleanly and then the rest of it. */
  lemma ApplyTokensFirst(st: State, items: seq<string>)
    requires Valid(st) && items != [] && ApplyTokens(st, items).Success?
    ensures ApplyToken(st, items[0]).Success?
    ensures ApplyTokens(st, items) == ApplyTokens(ApplyToken(st, items[0]).value, items[1..])
  {
  }

  /** No token after position `j` carries `fld`, seen from the tail of the block. */
  lemma TailCarriersAfter(items: seq<string>, j: nat, fld: Field)
    requires j < |items|
    requires forall i :: j < i < |items| && MatchToken(items[i]).Some? ==> !Carries(MatchToken(items[i]).value, fld)
    ensures forall i :: j <= i < |items[1..]| && MatchToken(items[1..][i]).Some? ==> !Carries(MatchToken(items[1..][i]).value, fld)
  {
    forall i | j <= i < |items[1..]| && MatchToken(items[1..][i]).Some?
      ensures !Carries(MatchToken(items[1..][i]).value, fld)
    {
      assert items[1..][i] == items[i + 1];
    }
  }

  /**
   * After a block, each field of the current record holds the value of the last
   * token in the block that carries it (the later tokens do not carry it).
   */
  lemma {:induction false} BlockLastOverrideWins(st: State, items: seq<string>, j: nat, fld: Field)
    requires Valid(st) && st.last in st.owner && ApplyTokens(st, items).Success?
    requires j < |items| && items[j] !in st.owner
    requires MatchToken(items[j]).Some? && Carries(MatchToken(items[j]).value, fld)
    requires forall i :: j < i < |items| && MatchToken(items[i]).Some? ==> !Carries(MatchToken(items[i]).value, fld)
    ensures GroupValue(MatchToken(items[j]).value, fld).Some?
    ensures var r := ApplyTokens(st, items).value;
      FieldOf(r.recs[st.owner[st.last]], fld) == GroupValue(MatchToken(items[j]).value, fld).value
    decreases |items|
  {
    if j == 0 {
      FirstCarrierWins(st, items, fld);
    } else {
      LaterCarrierStep(st, items, j, fld);
      BlockLastOverrideWins(ApplyToken(st, items[0]).value, items[1..], j - 1, fld);
    }
  }

  /** When the carrier is not the first token, the rest of the block meets the same conditions after the first token. */
  lemma LaterCarrierStep(st: State, items: seq<string>, j: nat, fld: Field)
    requires Valid(st) && st.last in st.owner && ApplyTokens(st, items).Success?
    requires 0 < j < |items| && items[j] !in st.owner
    requires MatchToken(items[j]).Some? && Carries(MatchToken(items[j]).value, fld)
    requires forall i :: j < i < |items| && MatchToken(items[i]).Some? ==> !Carries(MatchToken(items[i]).value, fld)
    ensures ApplyToken(st, items[0]).Success?
    ensures var s1 := ApplyToken(st, items[0]).value;
      && s1.last in s1.owner && s1.owner[s1.last] == st.owner[st.last]
      && ApplyTokens(st, items) == ApplyTokens(s1, items[1..])
      && items[1..][j - 1] == items[j] && items[j] !in s1.owner
    ensures forall i :: j <= i < |items[1..]| && MatchToken(items[1..][i]).Some? ==> !Carries(MatchToken(items[1..][i]).value, fld)
  {
    ApplyTokensFirst(st, items);
    TailCarriersAfter(items, j, fld);
    CarrierStaysUnbound(st, items[0], items[j], fld);
  }

  /** The case of `BlockLastOverrideWins` where the carrier is the first token of the block. */
  lemma FirstCarrierWins(st: State, items: seq<string>, fld: Field)
    requires Valid(st) && st.last in st.owner && ApplyTokens(st, items).Success?
    requires 0 < |items| && items[0] !in st.owner
    requires MatchToken(items[0]).Some? && Carries(MatchToken(items[0]).value, fld)
    requires forall i :: 0 < i < |items| && MatchToken(items[i]).Some? ==> !Carries(MatchToken(items[i]).value, fld)
    ensures GroupValue(MatchToken(items[0]).value, fld).Some?
    ensures var r := ApplyTokens(st, items).value;
      FieldOf(r.recs[st.owner[st.last]], fld) == GroupValue(MatchToken(items[0]).value, fld).value
  {
    ApplyTokensFirst(st, items);
    TailCarriersAfter(items, 0, fld);
    FirstTokenSets(st, items[0], fld);
    BlockKeepsField(ApplyToken(st, items[0]).value, items[1..], fld);
  }

  // ---------------------------------------------------------------------------
  // Runs of lines: a primary line with its continuation lines, and the whole file

  /** Two runs of tokens applied one after the other, stopping at the first failure. */
  lemma {:induction false} ApplyTokensAppend(st: State, a: seq<string>, b: seq<string>)
    requires Valid(st)
    ensures ApplyTokens(st, a + b) ==
      if ApplyTokens(st, a).Failure? then ApplyTokens(st, a) else ApplyTokens(ApplyTokens(st, a).value, b)
    decreases |a|
  {
    if a == [] {
      assert a + b == b;
    } else {
      assert (a + b)[0] == a[0];
      assert (a + b)[1..] == a[1..] + b;
      var s := ApplyToken(st, a[0]);
      if s.Success? {
        ApplyTokensAppend(s.value, a[1..], b);
      }
    }
  }

  /** Lines as the loop reads them, one `StepLine` after the other, until one fails. */
  function ReadLines(st: State, lines: seq<string>): (r: Result<State, ImportError>)
    requires Valid(st) && forall i :: 0 <= i < |lines| ==> lines[i] != []
    ensures r.Success? ==> Valid(r.value) && st.owner.Keys <= r.value.owner.Keys
    decreases |lines|
  {
    if lines == [] then Success(st)
    else
      var s := StepLine(st, lines[0]);
      if s.Failure? then s else ReadLines(s.value, lines[1..])
  }

  /** Two runs of lines read one after the other, stopping at the first failure. */
  lemma {:induction false} ReadLinesAppend(st: State, a: seq<string>, b: seq<string>)
    requires Valid(st)
    requires forall i :: 0 <= i < |a| ==> a[i] != []
    requires forall i :: 0 <= i < |b| ==> b[i] != []
    ensures forall i :: 0 <= i < |a + b| ==> (a + b)[i] != []
    ensures ReadLines(st, a + b) ==
      if ReadLines(st, a).Failure? then ReadLines(st, a) else ReadLines(ReadLines(st, a).value, b)
    decreases |a|
  {
    if a == [] {
      assert a + b == b;
    } else {
      assert (a + b)[0] == a[0];
      assert (a + b)[1..] == a[1..] + b;
      var s := StepLine(st, a[0]);
      if s.Success? {
        ReadLinesAppend(s.value, a[1..], b);
      }
    }
  }

  /** Lines that each start with whitespace. */
  predicate ContinuationLines(lines: seq<string>)
  {
    forall i :: 0 <= i < |lines| ==> lines[i] != [] && IsSpace(lines[i][0])
  }

  /** The override tokens of a run of lines, line after line. */
  function BlockTokens(lines: seq<string>): (items: seq<string>)
    ensures |lines| <= |items|
  {
    if lines == [] then [] else OverrideTokens(lines[0]) + BlockTokens(lines[1..])
  }

  /** A run of continuation lines applies all their tokens as one sequence. */
  lemma {:induction false} ContinuationRun(st: State, lines: seq<string>)
    requires Valid(st) && ContinuationLines(lines)
    ensures ReadLines(st, lines) == ApplyTokens(st, BlockTokens(lines))
    decreases |lines|
  {
    if lines != [] {
      var s := ApplyTokens(st, OverrideTokens(lines[0]));
      if s.Success? {
        ContinuationRun(s.value, lines[1..]);
      }
      ContinuationFirst(st, lines);
    }
  }

  /** The first continuation line of a run: its tokens come before those of the others. */
  lemma {:induction false} ContinuationFirst(st: State, lines: seq<string>)
    requires Valid(st) && lines != [] && ContinuationLines(lines)
    requires var s := ApplyTokens(st, OverrideTokens(lines[0]));
      s.Success? ==> ReadLines(s.value, lines[1..]) == ApplyTokens(s.value, BlockTokens(lines[1..]))
    ensures ReadLines(st, lines) == ApplyTokens(st, BlockTokens(lines))
  {
    StepLineCases(st, lines[0]);
    ApplyTokensAppend(st, OverrideTokens(lines[0]), BlockTokens(lines[1..]));
  }

  /** A primary line that parses, then its continuation lines: their tokens act on the new entry. */
  lemma {:induction false} PrimaryThenBlock(st: State, primary: string, lines: seq<string>)
    requires Valid(st) && primary != [] && IsAlpha(primary[0]) && ParsePrimary(primary).Success?
    requires ContinuationLines(lines)
    ensures forall i :: 0 <= i < |[primary] + lines| ==> ([primary] + lines)[i] != []
    ensures var p := ParsePrimary(primary).value;
      ReadLines(st, [primary] + lines) == ApplyTokens(AddPrimary(st, p.0, p.1), BlockTokens(lines))
  {
    var p := ParsePrimary(primary).value;
    ReadLinesFirst(st, primary, lines);
    StepLineCases(st, primary);
    ContinuationRun(AddPrimary(st, p.0, p.1), lines);
  }

  /** Reading a run of lines reads its first line, then the others unless that one fails. */
  lemma {:induction false} ReadLinesFirst(st: State, line: string, lines: seq<string>)
    requires Valid(st) && line != [] && forall i :: 0 <= i < |lines| ==> lines[i] != []
    ensures forall i :: 0 <= i < |[line] + lines| ==> ([line] + lines)[i] != []
    ensures ReadLines(st, [line] + lines) ==
      if StepLine(st, line).Failure? then StepLine(st, line) else ReadLines(StepLine(st, line).value, lines)
  {
    var all := [line] + lines;
    assert all[0] == line && all[1..] == lines;
  }

  /**
   * A primary entry's whole block: after the primary line and all its continuation
   * lines the key is the current entry with a new record, every key the block binds
   * shares that record, every other key keeps its binding, the records of earlier
   * entries are unchanged, and each matched token that was not a key gets its prefix
   * bound to the new record.
   */
  lemma {:induction false} PrimaryBlockShares(st: State, primary: string, lines: seq<string>)
    requires Valid(st) && primary != [] && IsAlpha(primary[0]) && ParsePrimary(primary).Success?
    requires ContinuationLines(lines)
    requires forall i :: 0 <= i < |[primary] + lines| ==> ([primary] + lines)[i] != []
    requires ReadLines(st, [primary] + lines).Success?
    ensures var key := ParsePrimary(primary).value.0;
      var r := ReadLines(st, [primary] + lines).value;
      var items := BlockTokens(lines);
      && r.last == key && key in r.owner && r.owner[key] == |st.recs|
      && (forall k :: k in r.owner ==> (k in st.owner && k != key && r.owner[k] == st.owner[k]) || r.owner[k] == r.owner[key])
      && (forall i :: 0 <= i < |st.recs| ==> r.recs[i] == st.recs[i])
      && (forall j :: 0 <= j < |items| && items[j] !in st.owner && items[j] != key && MatchToken(items[j]).Some? ==>
            MatchToken(items[j]).value.prefix in r.owner && r.owner[MatchToken(items[j]).value.prefix] == r.owner[key])
  {
    var p := ParsePrimary(primary).value;
    var st1 := AddPrimary(st, p.0, p.1);
    PrimaryThenBlock(st, primary, lines);
    BlockSharesRecord(st1, BlockTokens(lines));
  }

  /** A field no token of the block carries keeps the value the primary line gave it. */
  lemma {:induction false} PrimaryFieldKept(st: State, primary: string, lines: seq<string>, fld: Field)
    requires Valid(st) && primary != [] && IsAlpha(primary[0]) && ParsePrimary(primary).Success?
    requires ContinuationLines(lines)
    requires forall i :: 0 <= i < |[primary] + lines| ==> ([primary] + lines)[i] != []
    requires ReadLines(st, [primary] + lines).Success?
    requires var items := BlockTokens(lines);
      forall j :: 0 <= j < |items| && MatchToken(items[j]).Some? ==> !Carries(MatchToken(items[j]).value, fld)
    ensures var p := ParsePrimary(primary).value;
      var r := ReadLines(st, [primary] + lines).value;
      p.0 in r.owner && FieldOf(r.recs[r.owner[p.0]], fld) == FieldOf(p.1, fld)
  {
    var p := ParsePrimary(primary).value;
    var st1 := AddPrimary(st, p.0, p.1);
    PrimaryThenBlock(st, primary, lines);
    BlockSharesRecord(st1, BlockTokens(lines));
    BlockKeepsField(st1, BlockTokens(lines), fld);
  }

  /**
   * After the whole block the record of the primary key, which every key the block
   * bound shares, still names the primary line's entity and holds the length of the
   * primary key rather than that of any override prefix.
   */
  lemma {:induction false} PrimaryNameAndLenKept(st: State, primary: string, lines: seq<string>)
    requires Valid(st) && primary != [] && IsAlpha(primary[0]) && ParsePrimary(primary).Success?
    requires ContinuationLines(lines)
    requires forall i :: 0 <= i < |[primary] + lines| ==> ([primary] + lines)[i] != []
    requires ReadLines(st, [primary] + lines).Success?
    ensures var p := ParsePrimary(primary).value;
      var r := ReadLines(st, [primary] + lines).value;
      && p.0 in r.owner
      && r.recs[r.owner[p.0]].entity == p.1.entity
      && r.recs[r.owner[p.0]].len == |p.0|
  {
    var p := ParsePrimary(primary).value;
    var st1 := AddPrimary(st, p.0, p.1);
    PrimaryThenBlock(st, primary, lines);
    BlockSharesRecord(st1, BlockTokens(lines));
    BlockKeepsNameAndLen(st1, BlockTokens(lines));
  }

  /** A field some token of the block carries holds the value of the last such token. */
  lemma {:induction false} PrimaryLastOverrideWins(st: State, primary: string, lines: seq<string>, j: nat, fld: Field)
    requires Valid(st) && primary != [] && IsAlpha(primary[0]) && ParsePrimary(primary).Success?
    requires ContinuationLines(lines)
    requires forall i :: 0 <= i < |[primary] + lines| ==> ([primary] + lines)[i] != []
    requires ReadLines(st, [primary] + lines).Success?
    requires var items := BlockTokens(lines);
      && j < |items| && items[j] !in st.owner && items[j] != ParsePrimary(primary).value.0
      && MatchToken(items[j]).Some? && Carries(MatchToken(items[j]).value, fld)
      && forall i :: j < i < |items| && MatchToken(items[i]).Some? ==> !Carries(MatchToken(items[i]).value, fld)
    ensures var items := BlockTokens(lines);
      GroupValue(MatchToken(items[j]).value, fld).Some?
    ensures var p := ParsePrimary(primary).value;
      var r := ReadLines(st, [primary] + lines).value;
      var items := BlockTokens(lines);
      p.0 in r.owner && FieldOf(r.recs[r.owner[p.0]], fld) == GroupValue(MatchToken(items[j]).value, fld).value
  {
    var p := ParsePrimary(primary).value;
    var st1 := AddPrimary(st, p.0, p.1);
    PrimaryThenBlock(st, primary, lines);
    BlockSharesRecord(st1, BlockTokens(lines));
    BlockLastOverrideWins(st1, BlockTokens(lines), j, fld);
  }

  /** One line as `readline` returns it from inside the file: ending in its only newline. */
  predicate IsLineChunk(c: string)
  {
    c != [] && c[|c| - 1] == '\n' && forall i :: 0 <= i < |c| - 1 ==> c[i] != '\n'
  }

  /** Whole lines none of which cleans to nothing. */
  predicate ReadableChunks(chunks: seq<string>)
  {
    forall i :: 0 <= i < |chunks| ==> IsLineChunk(chunks[i]) && CleanLine(chunks[i]) != []
  }

  /** Chunks written one after the other. */
  function Concat(chunks: seq<string>): string
  {
    if chunks == [] then "" else chunks[0] + Concat(chunks[1..])
  }

  /** The first chunk, then the others and what follows them. */
  lemma ConcatFirst(chunks: seq<string>, rest: string)
    requires chunks != []
    ensures Concat(chunks) + rest == chunks[0] + (Concat(chunks[1..]) + rest)
  {
    assert Concat(chunks) == chunks[0] + Concat(chunks[1..]);
  }

  /** The lines the loop sees in a run of chunks. */
  function CleanLines(chunks: seq<string>): (lines: seq<string>)
    ensures |lines| == |chunks|
    ensures forall i :: 0 <= i < |chunks| ==> lines[i] == CleanLine(chunks[i])
    ensures ReadableChunks(chunks) ==> forall i :: 0 <= i < |lines| ==> lines[i] != []
  {
    seq(|chunks|, i requires 0 <= i < |chunks| => CleanLine(chunks[i]))
  }

  /** `readline` on a text that starts with a whole line returns that line. */
  lemma {:induction false} NextChunkOf(c: string, more: string)
    requires IsLineChunk(c)
    ensures NextChunk(c + more) == (c, more)
  {
    var body := c[..|c| - 1];
    assert AllIn(body, AllBut('\n'));
    assert c == body + ['\n'];
    assert c + more == body + (['\n'] + more);
    SpanOf(body, ['\n'] + more, AllBut('\n'));
  }

  /**
   * The loop over a run of whole lines none of which cleans to nothing: it reads
   * them one by one, and goes on with the rest of the text unless one fails.
   */
  lemma {:induction false} ImportFromChunks(st: State, chunks: seq<string>, rest: string)
    requires Valid(st)
    requires ReadableChunks(chunks)
    ensures ImportFrom(st, Concat(chunks) + rest) ==
      var r := ReadLines(st, CleanLines(chunks));
      if r.Failure? then r else ImportFrom(r.value, rest)
    decreases |chunks|, 1
  {
    if chunks == [] {
      assert Concat(chunks) + rest == rest;
    } else {
      ImportFromSomeChunks(st, chunks, rest);
    }
  }

  /** The same for a run of at least one chunk: its first line, then the others. */
  lemma {:induction false} ImportFromSomeChunks(st: State, chunks: seq<string>, rest: string)
    requires Valid(st) && chunks != []
    requires ReadableChunks(chunks)
    ensures ImportFrom(st, Concat(chunks) + rest) ==
      var r := ReadLines(st, CleanLines(chunks));
      if r.Failure? then r else ImportFrom(r.value, rest)
    decreases |chunks|, 0
  {
    var s := StepLine(st, CleanLine(chunks[0]));
    if s.Success? {
      ImportFromChunks(s.value, chunks[1..], rest);
    }
    ImportFromFirstChunk(st, chunks, rest);
  }

  /** The first chunk of a run is read before the others. */
  lemma {:induction false} ImportFromFirstChunk(st: State, chunks: seq<string>, rest: string)
    requires Valid(st) && chunks != []
    requires ReadableChunks(chunks)
    requires var s := StepLine(st, CleanLine(chunks[0]));
      s.Success? ==>
        ImportFrom(s.value, Concat(chunks[1..]) + rest) ==
        (var r := ReadLines(s.value, CleanLines(chunks[1..]));
         if r.Failure? then r else ImportFrom(r.value, rest))
    ensures ImportFrom(st, Concat(chunks) + rest) ==
      var r := ReadLines(st, CleanLines(chunks));
      if r.Failure? then r else ImportFrom(r.value, rest)
  {
    ConcatFirst(chunks, rest);
    CleanLinesFirst(chunks);
    ImportFromFirstLine(st, chunks[0], Concat(chunks[1..]) + rest, CleanLines(chunks[1..]), rest);
  }

  /** The loop on a whole line followed by a text that reads as `lines` and then `rest`. */
  lemma {:induction false} ImportFromFirstLine(st: State, c: string, tail: string, lines: seq<string>, rest: string)
    requires Valid(st) && IsLineChunk(c) && CleanLine(c) != []
    requires forall i :: 0 <= i < |lines| ==> lines[i] != []
    requires var s := StepLine(st, CleanLine(c));
      s.Success? ==>
        ImportFrom(s.value, tail) ==
        (var r := ReadLines(s.value, lines);
         if r.Failure? then r else ImportFrom(r.value, rest))
    ensures forall i :: 0 <= i < |[CleanLine(c)] + lines| ==> ([CleanLine(c)] + lines)[i] != []
    ensures ImportFrom(st, c + tail) ==
      var r := ReadLines(st, [CleanLine(c)] + lines);
      if r.Failure? then r else ImportFrom(r.value, rest)
  {
    ImportFromLine(st, c, tail);
    ReadLinesFirst(st, CleanLine(c), lines);
  }

  /** The lines of a run of chunks: the first chunk's line, then the others'. */
  lemma CleanLinesFirst(chunks: seq<string>)
    requires chunks != []
    ensures CleanLines(chunks) == [CleanLine(chunks[0])] + CleanLines(chunks[1..])
  {
    assert CleanLines(chunks)[1..] == CleanLines(chunks[1..]);
  }

  /** A file of whole lines, none of which cleans to nothing, is read line by line to its end. */
  lemma {:induction false} ImportChunks(chunks: seq<string>)
    requires ReadableChunks(chunks)
    ensures Import(Concat(chunks)) == ReadLines(Start, CleanLines(chunks))
  {
    ImportFromChunks(Start, chunks, []);
    assert Concat(chunks) + [] == Concat(chunks);
    var r := ReadLines(Start, CleanLines(chunks));
    if r.Success? {
      ImportFromEnd(r.value);
    }
  }

  /**
   * A file of one primary line whose eighth field is not empty and whose zone and
   * coordinate fields convert is accepted: the dictionary holds that one entry.
   */
  lemma {:induction false} ImportOnePrimary(c: string)
    requires IsLineChunk(c) && CleanLine(c) != [] && IsAlpha(CleanLine(c)[0])
    requires var segs := Segments(CleanLine(c));
      && |segs| >= 8 && segs[7] != []
      && ParseInt(segs[1]).Some? && ParseInt(segs[2]).Some?
      && ParseFloat(segs[4]).Some? && ParseFloat(segs[5]).Some? && ParseFloat(segs[6]).Some?
    ensures ParsePrimary(CleanLine(c)).Success?
    ensures var p := ParsePrimary(CleanLine(c)).value;
      Import(c) == Success(AddPrimary(Start, p.0, p.1))
  {
    var line := CleanLine(c);
    var p := ParsePrimary(line).value;
    StepLineCases(Start, line);
    ImportFromLine(Start, c, []);
    assert c + [] == c;
    ImportFromEnd(AddPrimary(Start, p.0, p.1));
  }

  /** The loop on a text that starts with a whole line that does not clean to nothing. */
  lemma {:induction false} ImportFromLine(st: State, c: string, tail: string)
    requires Valid(st) && IsLineChunk(c) && CleanLine(c) != []
    ensures ImportFrom(st, c + tail) ==
      if StepLine(st, CleanLine(c)).Failure? then StepLine(st, CleanLine(c))
      else ImportFrom(StepLine(st, CleanLine(c)).value, tail)
  {
    NextChunkOf(c, tail);
  }

  /** At the end of the text the loop stops with what it has. */
  lemma {:induction false} ImportFromEnd(st: State)
    requires Valid(st)
    ensures ImportFrom(st, []) == Success(st)
  {
    assert NextChunk([]) == ([], []);
  }

  // ---------------------------------------------------------------------------
  // Lines that do not introduce an entry

  /** A chunk that starts with neither a carriage return nor a colon keeps its first character when cleaned. */
  lemma CleanLineStart(chunk: string)
    requires chunk != [] && chunk[0] != '\r' && chunk[0] != ':'
    ensures CleanLine(chunk) != [] && CleanLine(chunk)[0] == chunk[0]
  {
    var a := RStripChar(chunk, '\r');
    assert a != [] && a[0] == chunk[0];
    assert TrimLeft(a, Only(':')) == a;
  }

  /**
   * A file whose first line starts with whitespace (a blank line included) fails
   * with a `KeyError`: the current entry is looked up before any primary line set it.
   */
  lemma LeadingContinuationFails(text: string)
    requires text != [] && IsSpace(text[0]) && text[0] != '\r'
    ensures Import(text) == Failure(NoCurrentEntity)
  {
    var c := NextChunk(text);
    assert c.0[0] == text[0];
    CleanLineStart(c.0);
    ContinuationBeforePrimary(CleanLine(c.0));
    FirstLineFails(Start, text);
  }

  /** A continuation line read before any primary line fails on its first token. */
  lemma ContinuationBeforePrimary(line: string)
    requires line != [] && IsSpace(line[0])
    ensures StepLine(Start, line) == Failure(NoCurrentEntity)
  {
    var items := OverrideTokens(line);
    assert ApplyToken(Start, items[0]) == Failure(NoCurrentEntity);
    assert ApplyTokens(Start, items) == Failure(NoCurrentEntity);
  }

  /** When the first line of the text fails, so does the whole read. */
  lemma FirstLineFails(st: State, text: string)
    requires Valid(st)
    requires CleanLine(NextChunk(text).0) != []
    requires StepLine(st, CleanLine(NextChunk(text).0)).Failure?
    ensures ImportFrom(st, text) == StepLine(st, CleanLine(NextChunk(text).0))
  {
  }

  /** A blank line holds a single empty token. */
  lemma BlankLineTokens()
    ensures OverrideTokens("\n") == [[]]
  {
    assert SpanEnd("\n", 1, Space) == 1;
    assert TrimLeft("\n", Space) == [];
    assert Strip("\n") == [];
    assert RStripChar(RStripChar([], ';'), ',') == [];
    assert SpanEnd([], 0, AllBut(',')) == 0;
  }

  /** A blank line after the first primary line is one empty token, and changes nothing. */
  lemma BlankLineUnchanged(st: State)
    requires Valid(st) && st.last in st.owner
    ensures StepLine(st, "\n") == Success(st)
  {
    BlankLineTokens();
    assert ApplyToken(st, []) == Success(st);
    assert ApplyTokens(st, [[]]) == ApplyTokens(st, []);
  }

  /** A blank line in the middle of the text does not end the read: the loop goes on with the rest. */
  lemma {:induction false} BlankLineContinues(st: State, rest: string)
    requires Valid(st) && st.last in st.owner
    ensures ImportFrom(st, "\n" + rest) == ImportFrom(st, rest)
  {
    CleanLineStart("\n");
    ImportFromLine(st, "\n", rest);
    BlankLineUnchanged(st);
  }

}

/**
 * The `BigCty` object: a table from callsign prefixes to record objects, and the
 * version stamp of the data. `ImportDat` is the readline loop of `import_dat`,
 * proved against `DatImport.Import`; `Load` and `Dump` are the dictionary side
 * of `load` and `dump`; `Len`, `Get` and `Iter` are the read-only Mapping wrappers.
 */
module Cty {
  import opened Wrappers
  import opened Ascii
  import opened TokenMatcher
  import opened Version
  import opened DatImport
  import opened Store
  import Numbers

  /**
   * One record dictionary of the table. An override token writes into the record
   * of the current primary entry itself, so one `Entry` can sit under many keys.
   */
  class Entry {
    var entity: string
    var cq: int
    var itu: int
    var continent: string
    var lat: real
    var long: real
    var tz: real
    var len: nat

    constructor (f: Fields)
      ensures Value() == f
    {
      entity, cq, itu, continent := f.entity, f.cq, f.itu, f.continent;
      lat, long, tz, len := f.lat, f.long, f.tz, f.len;
    }

    /** The eight fields of the record as a value. */
    function Value(): Fields
      reads this
    {
      Fields(entity, cq, itu, continent, lat, long, tz, len)
    }
  }

  /**
   * The heap table `table` with the distinct record objects `objs` is the value
   * state `st`: the same keys, each key's object is the record `st` assigns it,
   * and that object's fields are that record.
   */
  ghost predicate Represents(table: map<string, Entry>, objs: seq<Entry>, st: State)
    reads objs
  {
    && Valid(st)
    && table.Keys == st.owner.Keys
    && |objs| == |st.recs|
    && (forall k :: k in table ==> table[k] == objs[st.owner[k]])
    && (forall i :: 0 <= i < |objs| ==> objs[i].Value() == st.recs[i])
    && (forall i, j :: 0 <= i < j < |objs| ==> objs[i] != objs[j])
  }

  /**
   * The table `data` holds what the value state `st` describes: the same keys,
   * each key's record, and two keys share one record object exactly when `st`
   * binds them to the same record.
   */
  ghost predicate Holds(data: map<string, Entry>, st: State)
    reads data.Values
  {
    && Valid(st)
    && data.Keys == st.owner.Keys
    && (forall k :: k in data ==> data[k].Value() == st.recs[st.owner[k]])
    && (forall k1, k2 :: k1 in data && k2 in data ==> (data[k1] == data[k2] <==> st.owner[k1] == st.owner[k2]))
  }

  /**
   * The field updates of one override token on the record object `entry`, in the
   * order the source makes them (`itu`, `cq`, `lat`, `long`, `continent`, `tz`);
   * `false` when `int` or `float` refuses a captured text, which ends the import.
   */
  method WriteOverride(entry: Entry, o: Override) returns (ok: bool)
    modifies entry
    ensures ok <==> ApplyOverride(old(entry.Value()), o).Success?
    ensures ok ==> entry.Value() == ApplyOverride(old(entry.Value()), o).value
  {
    ok := false;
    if o.itu.Some? {
      var v := Numbers.ParseInt(o.itu.value);
      if v.None? {
        return;
      }
      entry.itu := v.value;
    }
    if o.cq.Some? {
      var v := Numbers.ParseInt(o.cq.value);
      if v.None? {
        return;
      }
      entry.cq := v.value;
    }
    if o.latlong.Some? {
      var lat := Numbers.ParseFloat(o.latlong.value.0);
      if lat.None? {
        return;
      }
      entry.lat := lat.value;
      var long := Numbers.ParseFloat(o.latlong.value.1);
      if long.None? {
        return;
      }
      entry.long := long.value;
    }
    if o.continent.Some? {
      entry.continent := o.continent.value;
    }
    if o.tz.Some? {
      var tz := Numbers.ParseFloat(o.tz.value);
      if tz.None? {
        return;
      }
      entry.tz := -tz.value;
    }
    ok := true;
  }

  /**
   * One token of a continuation line: skipped when it is already a key as written;
   * otherwise the current record is looked up (a `KeyError` without one), and a
   * match writes into that record and binds the matched prefix to the same object.
   */
  method ApplyTokenTo(cty: map<string, Entry>, last: string, item: string, ghost objs: seq<Entry>, ghost st: State)
    returns (table: map<string, Entry>, err: Option<ImportError>)
    requires Represents(cty, objs, st) && st.last == last
    modifies cty.Values
    ensures ApplyToken(st, item).Failure? ==> err == Some(ApplyToken(st, item).error)
    ensures ApplyToken(st, item).Success? ==> err == None && Represents(table, objs, ApplyToken(st, item).value)
    ensures table.Values <= cty.Values
  {
    table := cty;
    err := None;
    if item in cty {
      return;
    }
    if last !in cty {
      return table, Some(NoCurrentEntity);
    }
    var entry := cty[last];
    var m := MatchToken(item);
    if m.None? {
      return;
    }
    ghost var id := st.owner[last];
    var ok := WriteOverride(entry, m.value);
    if !ok {
      return table, Some(BadNumber);
    }
    table := cty[m.value.prefix := entry];
    ghost var r := State(st.owner[m.value.prefix := id], st.recs[id := entry.Value()], st.last);
    assert ApplyToken(st, item) == Success(r);
    forall i | 0 <= i < |objs|
      ensures objs[i].Value() == r.recs[i]
    {
      if i != id {
        assert objs[i] != entry;
      }
    }
  }

  /** The tokens of one continuation line, left to right, until one fails. */
  method ApplyTokensTo(cty: map<string, Entry>, last: string, items: seq<string>, ghost objs: seq<Entry>, ghost st: State)
    returns (table: map<string, Entry>, err: Option<ImportError>)
    requires Represents(cty, objs, st) && st.last == last
    modifies cty.Values
    ensures ApplyTokens(st, items).Failure? ==> err == Some(ApplyTokens(st, items).error)
    ensures ApplyTokens(st, items).Success? ==> err == None && Represents(table, objs, ApplyTokens(st, items).value)
    ensures table.Values <= cty.Values
  {
    table := cty;
    ghost var cur := st;
    var i := 0;
    while i < |items|
      invariant i <= |items|
      invariant Represents(table, objs, cur) && cur.last == last
      invariant ApplyTokens(cur, items[i..]) == ApplyTokens(st, items)
      invariant table.Values <= cty.Values
    {
      var item := items[i];
      assert ApplyTokens(cur, items[i..]) == if ApplyToken(cur, item).Failure? then ApplyToken(cur, item)
        else ApplyTokens(ApplyToken(cur, item).value, items[i + 1..]);
      table, err := ApplyTokenTo(table, last, item, objs, cur);
      if err.Some? {
        return;
      }
      cur := ApplyToken(cur, item).value;
      i := i + 1;
    }
    assert items[i..] == [];
    err := None;
  }

  lemma ImportFromStep(st: State, rest: string)
    requires Valid(st)
    requires CleanLine(NextChunk(rest).0) != []
    ensures var line := CleanLine(NextChunk(rest).0);
      ImportFrom(st, rest) == if StepLine(st, line).Failure? then StepLine(st, line)
        else ImportFrom(StepLine(st, line).value, NextChunk(rest).1)
  {
  }

  /** Distinct record objects make sharing an object the same as sharing a record number. */
  lemma RepresentsHolds(table: map<string, Entry>, objs: seq<Entry>, st: State)
    requires Represents(table, objs, st)
    ensures Holds(table, st)
  {
    forall k1, k2 | k1 in table && k2 in table
      ensures table[k1] == table[k2] <==> st.owner[k1] == st.owner[k2]
    {
      var i, j := st.owner[k1], st.owner[k2];
      if i < j {
        assert objs[i] != objs[j];
      } else if j < i {
        assert objs[j] != objs[i];
      }
    }
  }

  /** Appending a fresh record object for a new primary key keeps the table and the value state in step. */
  lemma RepresentsAdd(table: map<string, Entry>, objs: seq<Entry>, st: State, key: string, e: Entry, f: Fields)
    requires Represents(table, objs, st) && e.Value() == f
    requires forall i :: 0 <= i < |objs| ==> objs[i] != e
    ensures Represents(table[key := e], objs + [e], AddPrimary(st, key, f))
  {
    var objs' := objs + [e];
    assert forall i :: 0 <= i < |objs| ==> objs'[i] == objs[i];
  }

  method AddEntry(cty: map<string, Entry>, key: string, f: Fields, ghost objs: seq<Entry>, ghost st: State)
    returns (table: map<string, Entry>, ghost objs': seq<Entry>)
    requires Represents(cty, objs, st)
    ensures Represents(table, objs', AddPrimary(st, key, f))
    ensures forall e :: e in table.Values ==> e in cty.Values || fresh(e)
  {
    var e := new Entry(f);
    RepresentsAdd(cty, objs, st, key, e, f);
    table := cty[key := e];
    objs' := objs + [e];
  }

  /**
   * A primary line: its fields are parsed (an `IndexError` or `ValueError` on a
   * malformed line), a fresh record object is stored under the key, and the key
   * becomes the current entry.
   */
  method PrimaryLineTo(cty: map<string, Entry>, line: string, ghost objs: seq<Entry>, ghost st: State)
    returns (table: map<string, Entry>, key: string, err: Option<ImportError>, ghost objs': seq<Entry>, ghost res: Result<(string, Fields), ImportError>)
    requires Represents(cty, objs, st)
    ensures res == ParsePrimary(line)
    ensures res.Failure? ==> err == Some(res.error)
    ensures res.Success? ==> err == None && key == res.value.0 && Represents(table, objs', AddPrimary(st, key, res.value.1))
    ensures forall e :: e in table.Values ==> e in cty.Values || fresh(e)
  {
    var p := ParsePrimary(line);
    res := p;
    if p.Failure? {
      return cty, "", Some(p.error), objs, res;
    }
    key := p.value.0;
    table, objs' := AddEntry(cty, key, p.value.1, objs, st);
    err := None;
  }

  /**
   * One line of the loop: a line starting with a letter is a primary line, one
   * starting with whitespace a continuation line, and any other line is passed
   * over. The new record objects are appended to `objs`.
   */
  method StepLineTo(cty: map<string, Entry>, last: string, line: string, ghost objs: seq<Entry>, ghost st: State)
    returns (table: map<string, Entry>, current: string, err: Option<ImportError>, ghost objs': seq<Entry>, ghost res: Result<State, ImportError>)
    requires Represents(cty, objs, st) && st.last == last && line != []
    modifies cty.Values
    ensures res == StepLine(st, line)
    ensures res.Failure? ==> err == Some(res.error)
    ensures res.Success? ==> err == None && Represents(table, objs', res.value) && res.value.last == current
    ensures forall e :: e in table.Values ==> e in cty.Values || fresh(e)
  {
    table, current, err, objs' := cty, last, None, objs;
    res := StepLine(st, line);
    if IsAlpha(line[0]) {
      ghost var p;
      table, current, err, objs', p := PrimaryLineTo(cty, line, objs, st);
    } else if IsSpace(line[0]) {
      var items := OverrideTokens(line);
      table, err := ApplyTokensTo(cty, last, items, objs, st);
    }
  }

  /**
   * One pass of the readline loop on the unread text `rest`: `done` when the line
   * read is empty once cleaned, otherwise the line is handled and the text after it
   * is what is left to read.
   */
  method ReadLineTo(cty: map<string, Entry>, last: string, rest: string, ghost objs: seq<Entry>, ghost st: State)
    returns (table: map<string, Entry>, current: string, rest': string, done: bool, err: Option<ImportError>,
             ghost objs': seq<Entry>, ghost st': State)
    requires Represents(cty, objs, st) && st.last == last
    modifies cty.Values
    ensures err.Some? ==> ImportFrom(st, rest) == Failure(err.value)
    ensures err.None? ==> Represents(table, objs', st') && st'.last == current && ImportFrom(st', rest') == ImportFrom(st, rest)
    ensures done ==> err.None? && ImportFrom(st, rest) == Success(st') && rest' == rest
    ensures !done ==> |rest'| < |rest|
    ensures forall e :: e in table.Values ==> e in cty.Values || fresh(e)
  {
    var chunk := NextChunk(rest);
    var line := CleanLine(chunk.0);
    if line == [] {
      return cty, last, rest, true, None, objs, st;
    }
    ImportFromStep(st, rest);
    ghost var res;
    table, current, err, objs', res := StepLineTo(cty, last, line, objs, st);
    done := false;
    rest' := chunk.1;
    st' := if res.Success? then res.value else st;
  }

  /**
   * The `while True` readline loop of `import_dat`: a fresh dictionary and the key
   * of the current primary entry, updated line by line until a line is empty once
   * its trailing carriage return and its colons are stripped.
   */
  method BuildTable(text: string) returns (table: map<string, Entry>, err: Option<ImportError>)
    ensures Import(text).Failure? ==> err == Some(Import(text).error)
    ensures Import(text).Success? ==> err == None && Holds(table, Import(text).value)
    ensures err == None ==> forall k :: k in table ==> fresh(table[k])
  {
    table := map[];
    var last := "";
    var rest := text;
    var done := false;
    err := None;
    ghost var objs: seq<Entry> := [];
    ghost var st := Start;
    while !done && err.None?
      invariant err.None? ==> Represents(table, objs, st) && st.last == last
      invariant err.None? ==> forall e :: e in table.Values ==> fresh(e)
      invariant err.None? ==> ImportFrom(st, rest) == Import(text)
      invariant err.Some? ==> Import(text) == Failure(err.value)
      invariant done ==> err.None? && Import(text) == Success(st)
      decreases |rest| + (if done || err.Some? then 0 else 1)
    {
      ghost var objs', st';
      table, last, rest, done, err, objs', st' := ReadLineTo(table, last, rest, objs, st);
      objs, st := objs', st';
    }
    if err.None? {
      forall k | k in table
        ensures fresh(table[k])
      {
        assert table[k] in table.Values;
      }
      RepresentsHolds(table, objs, st);
    }
  }

  /** A lookup of a key that is not in the table. */
  datatype LookupError = KeyError(key: string)

  class BigCty {
    var data: map<string, Entry>
    var version: string

    /** An empty table with an empty version; reading a file at construction is left to `Load`. */
    constructor ()
      ensures data == map[] && version == ""
    {
      data := map[];
      version := "";
    }

    /**
     * `import_dat`: the version stamp is searched for in the whole text first and
     * stored at once; the table is built line by line in a fresh dictionary that
     * replaces `data` only when the whole file has been read. An exception leaves
     * `data` as it was, but not `version`.
     */
    method ImportDat(text: string) returns (err: Option<ImportError>)
      modifies this
      ensures version == VersionOf(text)
      ensures Import(text).Failure? ==> err == Some(Import(text).error) && data == old(data)
      ensures Import(text).Success? ==> err == None && Holds(data, Import(text).value)
      ensures forall k :: k in data && k !in old(data) ==> fresh(data[k])
      ensures Import(text).Success? ==> forall k :: k in data ==> fresh(data[k])
    {
      ImportVersion(text);
      ghost var res;
      err, res := ImportTable(text);
    }

    /** `self._data = cty_dict`: the finished table becomes the data, record objects and all. */
    method Install(table: map<string, Entry>, ghost st: State)
      modifies this`data
      requires Holds(table, st)
      ensures data == table && Holds(data, st)
    {
      data := table;
    }

    /** The first step of `import_dat`: the version stamp of the whole text is stored. */
    method ImportVersion(text: string)
      modifies this
      ensures version == VersionOf(text) && data == old(data)
    {
      version := VersionOf(text);
    }

    /** The rest of `import_dat`: the table read from the text replaces `data` unless the read fails. */
    method ImportTable(text: string) returns (err: Option<ImportError>, ghost res: Result<State, ImportError>)
      modifies this`data
      ensures res == Import(text)
      ensures res.Failure? ==> err == Some(res.error) && data == old(data)
      ensures res.Success? ==> err == None && Holds(data, res.value)
      ensures forall k :: k in data && k !in old(data) ==> fresh(data[k])
      ensures res.Success? ==> forall k :: k in data ==> fresh(data[k])
    {
      var table;
      table, err := BuildTable(text);
      res := Import(text);
      if err.None? {
        Install(table, res.value);
      }
    }

    /**
     * `load`, once the JSON text is read: the `"version"` entry is popped out of the
     * document into `version`, and the rest becomes the table.
     */
    method Load(doc: map<string, Item<Entry>>)
      requires RecordsOnly(doc)
      requires VersionKey in doc ==> doc[VersionKey].Text?
      modifies this
      ensures data == Loaded(doc).0
      ensures version == if VersionKey in doc then doc[VersionKey].text else ""
    {
      var r := Loaded(doc);
      version := if r.1.Some? then r.1.value.text else "";
      data := r.0;
    }

    /** `dump`, before the JSON text is written: a copy of the table with the version added. */
    method Dump() returns (doc: map<string, Item<Entry>>)
      ensures doc == Dumped(data, version)
    {
      doc := Dumped(data, version);
    }

    /** `formatted_version`. */
    function FormattedVersion(): string
      reads this
    {
      FormatVersion(version)
    }

    /** `len(cty)`: the number of prefixes in the table. */
    function Len(): nat
      reads this
    {
      |data|
    }

    /** `cty[key]`: the record object of an exact prefix, or a `KeyError`. */
    function Get(key: string): (r: Result<Entry, LookupError>)
      reads this
      ensures r.Success? <==> key in data
      ensures r.Success? ==> r.value == data[key]
      ensures r.Failure? ==> r.error == KeyError(key)
    {
      if key in data then Success(data[key]) else Failure(KeyError(key))
    }

    /** `iter(cty)`: every prefix of the table once, in no particular order. */
    method Iter() returns (keys: seq<string>)
      ensures |keys| == Len()
      ensures forall k :: k in keys <==> k in data
      ensures forall i, j :: 0 <= i < j < |keys| ==> keys[i] != keys[j]
    {
      keys := [];
      var left := data.Keys;
      while left != {}
        invariant left <= data.Keys
        invariant forall k :: k in keys <==> k in data && k !in left
        invariant forall i, j :: 0 <= i < j < |keys| ==> keys[i] != keys[j]
        invariant |keys| + |left| == |data.Keys|
        decreases |left|
      {
        var k :| k in left;
        keys := keys + [k];
        left := left - {k};
      }
    }
  }
}

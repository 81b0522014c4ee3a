/**
 * The dictionary side of `BigCty.dump` and `BigCty.load`: the table written out
 * with the version stamp under the extra key `"version"`, and that key popped
 * back out when a dump is read in. The JSON text itself is not modelled.
 */
module Store {
  import opened Wrappers

  /** A value of a dumped dictionary: a prefix's record, or the version string. */
  datatype Item<T> = Record(rec: T) | Text(text: string)

  /** The key under which `dump` writes the version stamp. */
  const VersionKey := "version"

  /** `datadump = data.copy(); datadump["version"] = version`: the table is copied, never changed. */
  function Dumped<T>(data: map<string, T>, version: string): (doc: map<string, Item<T>>)
    ensures doc.Keys == data.Keys + {VersionKey}
    ensures doc[VersionKey] == Text(version)
    ensures forall k :: k in data && k != VersionKey ==> doc[k] == Record(data[k])
  {
    (map k | k in data :: Record(data[k]))[VersionKey := Text(version)]
  }

  /** A document every key of which, except `"version"`, holds a record. */
  predicate RecordsOnly<T>(doc: map<string, Item<T>>)
  {
    forall k :: k in doc && k != VersionKey ==> doc[k].Record?
  }

  /**
   * `version = doc.pop("version", None)`, the rest of the document becoming the
   * table: the records under every other key, and the popped value if there was one.
   */
  function Loaded<T>(doc: map<string, Item<T>>): (r: (map<string, T>, Option<Item<T>>))
    requires RecordsOnly(doc)
    ensures r.0.Keys == doc.Keys - {VersionKey}
    ensures forall k :: k in r.0 ==> doc[k] == Record(r.0[k])
    ensures r.1 == if VersionKey in doc then Some(doc[VersionKey]) else None
  {
    (map k | k in doc && k != VersionKey :: doc[k].rec,
     if VersionKey in doc then Some(doc[VersionKey]) else None)
  }

  /** Loading a dump gives back the table and the version, when no prefix is spelled `version`. */
  lemma LoadDumped<T>(data: map<string, T>, version: string)
    requires VersionKey !in data
    ensures RecordsOnly(Dumped(data, version))
    ensures Loaded(Dumped(data, version)) == (data, Some(Text(version)))
  {
    var r := Loaded(Dumped(data, version));
    assert r.0.Keys == data.Keys;
    assert forall k :: k in data ==> r.0[k] == data[k];
    assert r.0 == data;
  }

  /** A prefix spelled `version` is overwritten by the stamp in a dump, and so is lost by loading it. */
  lemma LoadDumpedLosesVersionKey<T>(data: map<string, T>, version: string)
    requires VersionKey in data
    ensures RecordsOnly(Dumped(data, version))
    ensures Loaded(Dumped(data, version)) == (data - {VersionKey}, Some(Text(version)))
  {
    var r := Loaded(Dumped(data, version));
    assert r.0.Keys == data.Keys - {VersionKey};
    assert forall k :: k in r.0 ==> r.0[k] == data[k];
    assert r.0 == data - {VersionKey};
  }

  /** Dumping what was loaded from a document with a string version gives the document back. */
  lemma DumpLoaded<T>(doc: map<string, Item<T>>)
    requires RecordsOnly(doc) && VersionKey in doc && doc[VersionKey].Text?
    ensures Dumped(Loaded(doc).0, doc[VersionKey].text) == doc
  {
    var d := Dumped(Loaded(doc).0, doc[VersionKey].text);
    assert d.Keys == doc.Keys;
    forall k | k in doc
      ensures d[k] == doc[k]
    {
    }
  }
}

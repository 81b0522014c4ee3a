# ctyparser: the cty.dat reader, modelled in Dafny

`ctyparser` reads the BigCTY data files of the country-files.com project, which map
amateur-radio callsign prefixes to DXCC entities. A `BigCty` object is a read-only
mapping from prefix to a record dictionary. The dictionary has the keys `entity`, `cq`, `itu`,
`continent`, `lat`, `long`, `tz` and `len`, and the object carries a `version` date stamp.
This project models the core of `ctyparser/bigcty.py`:

- `import_dat`, the line-by-line reader of the `cty.dat` text format. A line that
  starts with a letter is a primary entity line, and its eighth colon-separated field
  is the main prefix. A line that starts with whitespace holds comma-separated override
  tokens for the current entity. Each token is matched by the pattern `regex_dat` and
  writes its zone, coordinate, continent and time-zone overrides into the current
  record. The matched prefix is then bound to that same record object.
- The version search `VER(\d{8})` and the `formatted_version` property.
- The dictionary side of `load` and `dump`: the `"version"` key is popped out on load
  and added back on dump.
- The Mapping wrappers `__len__`, `__getitem__` and `__iter__`.

Modules:

- `Wrappers`: `Option` and `Result`.
- `Ascii`: character classes, `split` and the strip family.
- `Numbers`: Python's `int` and `float` on decimal texts.
- `Version`: the version search and `formatted_version`.
- `TokenMatcher`: `regex_dat` with `re.search`, as a pure function from a token to its captures.
- `DatImport`: the whole import as a function of the text, over a value state. A map
  from each prefix to a record number, plus a sequence of records, makes the sharing
  of record objects explicit.
- `Store`: the dump and load dictionaries.
- `Cty`: the class `Entry`, a record object updated in place, and the class `BigCty`.
  `BigCty.ImportDat` runs the readline loop over a map of `Entry` objects. It is
  proved against `DatImport.Import`. The proof covers each key's record and which
  keys share one object.

Details of `bigcty.py` that the model follows as written, although a reader of the
format might expect otherwise:

- A blank line does not end the import. It cleans to `"\n"`, which counts as a
  continuation line holding one empty token. That token changes nothing once there is a
  current entity, and raises `KeyError` before the first primary line. The loop stops
  only at the end of the text, or at a last line made only of colons with no newline.
- The duplicate check compares the raw token, so `=CALL` is found in the dictionary
  only when a primary line used `=CALL` itself as its key. Otherwise an exact-callsign
  token rebinds its callsign to the current record, even when an earlier entity bound it.
- The records carry no exact-match flag and no main-prefix field. Override keys share
  the primary's record object, so a later override token of the same block also
  changes what the earlier keys see.
- The longitude pattern writes an unescaped `.`, so any character except a newline
  separates its two digit runs. For most such characters `float` then refuses the
  text, and the import fails with `ValueError`. Python's `float` reads `e` and `E` as an
  exponent and `_` as a digit separator, so `2e3` gives 2000.0 and `2_3` gives 23.0.
  The model's `float` refuses both (see `Numbers.ParseFloat` under "Left out").

## Model

| member | source | states |
|---|---|---|
| Version.VersionOf | ctyparser/bigcty.py:106-107 | the version is "" exactly when no position of the text holds `VER` and eight digits; otherwise it is eight digits |
| Version.VersionOfFirstStamp | ctyparser/bigcty.py:106-107 | the recorded digits are those of the leftmost `VER` followed by eight digits |
| Version.FormatVersion | ctyparser/bigcty.py:178-185 | the result is ten characters with dashes at 4 and 7; for a calendar date it is the stamp's digits with dashes inserted, otherwise `0000-00-00` |
| Version.FormatVersionInvalid | ctyparser/bigcty.py:182-185 | the placeholder `0000-00-00` is returned exactly for stamps that are not dates |
| Version.LeapDay | ctyparser/bigcty.py:183-185 | a stamp for 29 February formats as a date exactly in leap years |
| Version.MonthThirteen | ctyparser/bigcty.py:183-185 | month 13 always gives the placeholder |
| Numbers.ParseInt | ctyparser/bigcty.py:120-121 | `int` succeeds exactly on an optional sign followed by one or more digits |
| Numbers.ParseIntShowInt | ctyparser/bigcty.py:120-121 | `int` reads back the decimal text of every integer |
| Numbers.ParseFloat | ctyparser/bigcty.py:122-123 | `float` succeeds exactly on an optional sign followed by digits with at most one `.` among them and at least one digit; without a sign the value is not negative |
| Numbers.ParseFloatOfInt | ctyparser/bigcty.py:122-123 | `float` and `int` agree on integer texts |
| Numbers.ParseFloatNegate | ctyparser/bigcty.py:123-123 | a leading `-` negates the value `float` gives |
| Ascii.Split | ctyparser/bigcty.py:116-116 | `split` gives at least one piece, no piece holds the separator, and joining the pieces with it gives the text back |
| Ascii.TrimLeft | ctyparser/bigcty.py:112-112 | the result is a suffix of the text, everything removed is in the class, and the result does not start with a class character |
| Ascii.TrimRight | ctyparser/bigcty.py:112-112 | the result is a prefix of the text, everything removed is in the class, and the result does not end with a class character |
| TokenMatcher.MatchToken | ctyparser/bigcty.py:54-63 | `re.search` finds no match exactly when the token holds no letter, digit or `/`; a match's prefix is a non-empty run of those characters |
| TokenMatcher.MatchRender | ctyparser/bigcty.py:54-63 | matching inverts rendering: a well-formed override, written after text without prefix characters, is read back capture for capture when what follows it is empty or starts with a group opener (`(`, `[`, `<`, `{`, `~`) that is not the opener of a group coming after the last group present |
| TokenMatcher.MisorderedGroups | ctyparser/bigcty.py:54-56 | a `(cq)` written after `[itu]` is not captured, because the groups are tried only in their fixed order |
| TokenMatcher.ExactCallsignToken | ctyparser/bigcty.py:54-54 | the `=` of an exact-callsign token is matched but not captured, and `/` is part of the prefix |
| TokenMatcher.LongitudeAnySeparator | ctyparser/bigcty.py:57-60 | any character but a newline between the two digit runs of the longitude is captured as part of it |
| TokenMatcher.BareToken | ctyparser/bigcty.py:54-63 | a token made only of prefix characters is its own prefix and carries no group |
| TokenMatcher.ZoneOverrideToken | ctyparser/bigcty.py:54-56 | `AA0(4)[7]` captures prefix `AA0`, CQ zone `4` and ITU zone `7`, and nothing else |
| DatImport.Segments | ctyparser/bigcty.py:116-116 | one field for each colon-separated piece of the line, at least one; each is its piece stripped and holds no colon |
| DatImport.PrimaryRecord | ctyparser/bigcty.py:116-124 | the record is stored exactly when there is a non-empty eighth field and the two zone and three coordinate fields all convert; otherwise an `IndexError` exactly when there is no non-empty eighth field and a `ValueError` exactly when a conversion fails, and no other error; a stored record has a leading `*` dropped from the key and noted in the entity, `tz` negated and `len` the key's length |
| DatImport.ParsePrimary | ctyparser/bigcty.py:116-123 | the key of a parsed primary line holds no colon, and `len` is its length |
| DatImport.AddPrimary | ctyparser/bigcty.py:120-124 | the key is bound to a new record that no other key shares, every other binding is kept, and the key becomes the current entry |
| DatImport.ApplyOverride | ctyparser/bigcty.py:134-144 | a `ValueError` exactly when a captured number does not convert; otherwise each captured field is replaced (`tz` negated) and every other field kept |
| DatImport.ApplyToken | ctyparser/bigcty.py:129-146 | a token that is already a key changes nothing; otherwise a `KeyError` exactly when there is no current entry; with a current entry, a matched token fails exactly when its override raises `ValueError`; no other error occurs, and no key is removed |
| DatImport.ApplyTokens | ctyparser/bigcty.py:128-146 | the `for item in overrides` loop fails only with `KeyError` or `ValueError`; otherwise the current entry and the number of records are unchanged and no key is removed |
| DatImport.ApplyTokensAppend | ctyparser/bigcty.py:128-146 | applying two token lists one after the other is applying their concatenation, stopping at the first failure |
| DatImport.OverrideTokens | ctyparser/bigcty.py:127-127 | at least one token, none holding a comma, and joined with commas they give back the stripped line without its trailing `;` and `,` |
| DatImport.StepLine | ctyparser/bigcty.py:115-146 | one line keeps every key naming a record and removes no key; a line that starts with neither a letter nor whitespace changes nothing |
| DatImport.StepLineCases | ctyparser/bigcty.py:115-146 | a line starting with a letter fails exactly when its fields do, with their error, and otherwise adds its entry; a line starting with whitespace applies its override tokens; any other line changes nothing |
| DatImport.CleanLine | ctyparser/bigcty.py:112-112 | the cleaned line is no longer than the chunk, and a non-empty one neither starts nor ends with `:` |
| DatImport.ImportFrom | ctyparser/bigcty.py:110-146 | the loop from a dictionary whose keys all name a record ends, if it succeeds, in such a dictionary |
| DatImport.Import | ctyparser/bigcty.py:104-146 | a successful import gives a dictionary whose keys all name a record |
| DatImport.NextChunkOf | ctyparser/bigcty.py:112-112 | `readline` on a text that starts with a whole line returns that line and leaves the rest |
| DatImport.ImportFromLine | ctyparser/bigcty.py:111-146 | one pass of the loop on a whole line that does not clean to nothing: the line is read, and unless it fails the loop goes on with the rest |
| DatImport.ImportFromEnd | ctyparser/bigcty.py:111-114 | at the end of the text the loop stops with the dictionary it has |
| DatImport.ReadLines | ctyparser/bigcty.py:111-146 | reading a run of lines keeps every key naming a record and removes no key |
| DatImport.ReadLinesAppend | ctyparser/bigcty.py:111-146 | two runs of lines read one after the other are read as one run, stopping at the first failure |
| DatImport.ImportFromChunks | ctyparser/bigcty.py:110-146 | on a run of whole lines none of which cleans to nothing, followed by more text, the loop reads the lines one by one and, unless one fails, goes on with the rest |
| DatImport.ImportChunks | ctyparser/bigcty.py:104-146 | a file of whole lines none of which cleans to nothing is imported exactly as its cleaned lines are read one by one |
| DatImport.ImportOnePrimary | ctyparser/bigcty.py:104-124 | a file of one primary line whose eighth field is not empty and whose numbers convert is accepted, and the dictionary holds exactly that entry as the current one |
| DatImport.ContinuationRun | ctyparser/bigcty.py:126-146 | any number of continuation lines act as one line holding all their tokens in order |
| DatImport.PrimaryThenBlock | ctyparser/bigcty.py:115-146 | after a primary line that parses, the tokens of all its continuation lines act on the entry it added |
| DatImport.PrimaryBlockShares | ctyparser/bigcty.py:115-146 | after a primary line and any number of continuation lines, the key is the current entry with a new record; every key either is an earlier key with its old binding or shares that record; earlier records are unchanged; each matched token that was not a key has its prefix bound to the new record |
| DatImport.PrimaryFieldKept | ctyparser/bigcty.py:120-146 | a field that no token of the block carries keeps the value the primary line gave it |
| DatImport.PrimaryNameAndLenKept | ctyparser/bigcty.py:120-146 | after the block the record every key of the block shares still holds the primary line's entity name and the length of the primary key, not of any override prefix |
| DatImport.PrimaryLastOverrideWins | ctyparser/bigcty.py:120-146 | a field that some token of the block carries holds the value of the last such token, across all the continuation lines |
| DatImport.NextChunk | ctyparser/bigcty.py:112-112 | `readline` splits off a chunk that ends at the first newline (or at the end of the text), and the two parts rebuild the text |
| DatImport.OverrideField | ctyparser/bigcty.py:134-144 | an override sets each field its token carries to that group's value and leaves every other field as it was |
| DatImport.TokenSharesRecord | ctyparser/bigcty.py:129-146 | a matched token binds its prefix to the current entry's record and updates that record in place; no other record and no other key changes |
| DatImport.ExactTokenRebinds | ctyparser/bigcty.py:129-146 | `=P` is not caught by the duplicate check, so `P` is rebound to the current record whatever it was bound to |
| DatImport.TokenWithoutPrefixSkipped | ctyparser/bigcty.py:131-133 | a token without any prefix character changes nothing |
| DatImport.BlockSharesRecord | ctyparser/bigcty.py:126-146 | after a continuation line, the current key keeps its record, every key bound or rebound shares it, untouched keys keep their bindings, no other record changes, and each new matched token's prefix is bound to the current record |
| DatImport.BlockKeepsField | ctyparser/bigcty.py:126-146 | a field no token of the line carries keeps its value |
| DatImport.BlockKeepsNameAndLen | ctyparser/bigcty.py:126-146 | no token of a line changes the current record's entity name or key length |
| DatImport.BlockLastOverrideWins | ctyparser/bigcty.py:126-146 | after a continuation line, each field holds the value of the last token that carries it |
| DatImport.ZoneOverrideExample | ctyparser/bigcty.py:134-137 | `AA0(4)[7]` sets CQ zone 4 and ITU zone 7 and keeps every other field |
| DatImport.ContinuationBeforePrimary | ctyparser/bigcty.py:126-130 | a continuation line read before any primary line raises `KeyError` |
| DatImport.LeadingContinuationFails | ctyparser/bigcty.py:110-130 | a file whose first line starts with whitespace, a blank line included, fails with `KeyError` |
| DatImport.BlankLineUnchanged | ctyparser/bigcty.py:125-133 | a blank line read after a primary line is one pass of the loop that changes nothing |
| DatImport.BlankLineContinues | ctyparser/bigcty.py:108-133 | a blank line does not end the loop: reading it and then the rest gives what reading the rest gives |
| DatImport.BlankLineTokens | ctyparser/bigcty.py:127-127 | a blank line splits into one empty token |
| Cty.Entry.constructor | ctyparser/bigcty.py:120-123 | a new record dictionary holds exactly the given fields |
| Cty.WriteOverride | ctyparser/bigcty.py:134-144 | the in-place field writes succeed exactly when the value model's override does, and then leave the record equal to it |
| Cty.ApplyTokenTo | ctyparser/bigcty.py:128-146 | one token on the object table fails as `ApplyToken` does, and otherwise the table represents `ApplyToken`'s state |
| Cty.ApplyTokensTo | ctyparser/bigcty.py:127-146 | the `for item in overrides` loop fails as `ApplyTokens` does, and otherwise the table represents its state |
| Cty.AddEntry | ctyparser/bigcty.py:120-124 | a fresh record object under the key keeps the table in step with `AddPrimary` |
| Cty.PrimaryLineTo | ctyparser/bigcty.py:115-124 | a primary line fails as `ParsePrimary` does, and otherwise adds the entry and makes its key current |
| Cty.StepLineTo | ctyparser/bigcty.py:115-146 | one line on the object table fails as `StepLine` does, and otherwise the table represents `StepLine`'s state |
| Cty.ReadLineTo | ctyparser/bigcty.py:111-114 | one pass of the loop: it stops on a line that cleans to nothing, and otherwise consumes one chunk and keeps what the rest of the import gives unchanged |
| Cty.BuildTable | ctyparser/bigcty.py:104-146 | the readline loop fails with the error `Import` gives, and otherwise builds a table of fresh objects that holds `Import`'s state, sharing included |
| Cty.BigCty.constructor | ctyparser/bigcty.py:65-67 | a new object has an empty table and version "" |
| Cty.BigCty.ImportDat | ctyparser/bigcty.py:96-147 | the version is always set from the whole text; on failure the error is `Import`'s and `data` is unchanged; on success `data` holds `Import`'s state: same keys, each key's record, and shared objects exactly where the state shares a record; every record object of the new table is a fresh one |
| Cty.BigCty.Install | ctyparser/bigcty.py:147-147 | `self._data = cty_dict`: the table built becomes `data`, and it still holds the import's state |
| Cty.BigCty.ImportVersion | ctyparser/bigcty.py:106-107 | the version stamp is stored before the table is read, and the table is untouched |
| Cty.BigCty.ImportTable | ctyparser/bigcty.py:104-147 | the table replaces `data` only when the whole text was read, and then holds `Import`'s state in fresh record objects |
| Cty.BigCty.Load | ctyparser/bigcty.py:78-82 | `version` is the popped `"version"` value and `data` is the rest of the document |
| Cty.BigCty.Dump | ctyparser/bigcty.py:90-92 | the dump is a copy of the table with the version under `"version"` |
| Cty.BigCty.Get | ctyparser/bigcty.py:191-192 | a lookup succeeds exactly for keys of the table, returns that key's record object, and otherwise raises `KeyError` of that key |
| Cty.BigCty.Iter | ctyparser/bigcty.py:188-195 | iteration gives every key of the table exactly once, as many keys as `len` counts |
| Store.Dumped | ctyparser/bigcty.py:91-92 | the dump's keys are the table's plus `"version"`; every other key holds its record, and `"version"` holds the version |
| Store.Loaded | ctyparser/bigcty.py:80-82 | the table holds every key but `"version"` with its record, and the popped value is there exactly when the key was |
| Store.LoadDumped | ctyparser/bigcty.py:80-92 | loading a dump gives back the table and the version when no prefix is spelled `version` |
| Store.LoadDumpedLosesVersionKey | ctyparser/bigcty.py:80-92 | a prefix spelled `version` is overwritten by the stamp in a dump, so loading loses it |
| Store.DumpLoaded | ctyparser/bigcty.py:80-92 | dumping what was loaded from a document with a string version gives the document back |

## Left out

- Files and JSON: `import_dat`, `load` and `dump` take the text or the dictionary instead of a path. Opening and reading files and the JSON encoding are not modelled.
- Line endings: the text is the one `readline` sees in text mode, after newline translation. The `rstrip('\x0D')` is modelled but has nothing left to remove in such text.
- Character classes: `isalpha`, `isspace`, `\d` and `\w` are ASCII only. Unicode letters, digits and spaces are not modelled.
- Numbers.ParseFloat: `float` is modelled on a sign, digits and an optional fraction, as an exact `real`. Exponents, `inf`/`nan`, underscores, surrounding whitespace and binary rounding are left out. A longitude such as `2e3` or `2_3`, which the unescaped `.` of the pattern lets through, is read by Python as 2000.0 or 23.0; here it is refused, so the model's import fails with `BadNumber` where the source stores the number.
- Numbers.ParseInt: underscores and surrounding whitespace, which Python's `int` accepts, are left out. All texts that reach it here are stripped or pure digits.
- Version.FormatVersion: `strptime` is modelled on exactly eight ASCII digits. Its acceptance of shorter fields such as `2019111` and the unpadded years below 1000 that `strftime` can give are left out.
- Cty.BigCty.Load: the document must have the shape `dump` writes: records under every key but `"version"`, and a string version. A document without `"version"` gives "" here, where the source stores `None`. A loaded table shares no record objects, unlike an imported one.
- Cty.BigCty.Iter: Python iterates a dictionary in insertion order. The model promises every key exactly once, in no particular order.
- Cty.BigCty.Len and Cty.BigCty.FormattedVersion: they only delegate (to `|data|` and to `Version.FormatVersion`), so their properties are stated by `Iter` and `FormatVersion`.
- `update()`: it downloads the feed and the zip archive, parses dates from the feed, and skips the download when the version is unchanged. All of it is network and file I/O, so it is not modelled. Its one effect on the object is a call to `import_dat`.
- `__str__`: it returns the text of the underlying dictionary and is not modelled.
- `__repr__`: it formats `self.last_updated`, an attribute the class never sets, so it raises `AttributeError`. It is not modelled.
- Cty.BigCty.constructor: `__init__`'s optional `file_path` argument, which calls `load` on that file, is left out with the rest of file reading. The constructor models `BigCty()` without an argument; `Load` models what `load` does with the document.
- `ctyparser/ctyparser.py`, `ctyparser/__main__.py` and `setup.py` are not part of this model.
- Partial writes: when `int` or `float` raises in the middle of an override, the fields written before stay in the abandoned dictionary. `Cty.WriteOverride` promises nothing about the record in that case, because the import then fails and `data` is left as it was.

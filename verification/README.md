# VibeSQL Audit in Dafny

This project models the parts of VibeSQL Audit that decide what an audit trail can be
trusted for, and proves what they do:

- the reader of `test_decoding` lines, against the printer of that format (`ChangeLine`,
  `TestDecoding`, `LineRoundTrip`, `ReaderState`, `MisreadColumns`);
- changed fields, sensitive-field detection and redaction, up to the event that leaves the
  forwarder (`Sensitive`, `WalEvent`, `RedactedLines`, `ExactRedaction`, `RedactionLimits`);
- the hash chain and `verify_chain`, with tamper evidence as a reduction to an explicit
  SHA-256 collision (`Payload`, `Chain`, `HashChains`, `VerifyChain`);
- the processor loop, the batch and the bounded retry queue (`Storage`, `Pipeline`, `Writer`,
  `Processors`), and the two halves together (`WholeRun`);
- the extension's bounded JSON escaper (`JsonEscape`).

`dafny verify dfyconfig.toml` checks all of it.

## Main results

1. **Reading inverts printing, exactly.** A printed row change whose columns are all readable
   or skipped by the reader (`WellFormed`) is read back with its command, table, names, order,
   sections and values (white space runs in quoted values collapsed) if and only if its table is
   plain (`PlainTable`) and no readable quoted value ends in a quote character (`Faithful`):
   `ReadPrinted`, `LineHead`, `LineRoundTrip`. Whatever the rest of a line holds, it is read right
   up to the first column that breaks these conditions (`ReadsOn`). A value comes back verbatim if
   and only if its white space is single blanks (`CollapseIsIdentity`).
   Past that column the reader is a state machine: what it has reported, and the column whose
   quoted text it still holds open. Whatever stands behind a row, the line is read as the rest is
   read from the row's state (`StateLaw`), and a column is open there if and only if, going back
   over empty values and unquoted ones that do not close, the first quoted value ends in a quote
   (`OpenExactly`). An open column takes the next one into it (`QuoteCarriesNext`), or is closed by
   a value that starts with white space, whose words are then read on their own (`BlankCloses`);
   at the end of the line it is reported without the quotes it ends in (`RowLeftOpen`).
   A column is dropped in every context if and only if the reader skips each word of it
   (`DroppedExactly`). A column whose type holds a blank, such as `character varying`, is not read
   as itself; the rest of its type and its value are read as if they stood between columns
   (`SpacedTypeReadsOn`), so without a colon before the blank it is dropped if and only if those
   words are all skipped (`SpacedTypeIsLost`), a marker among them changes the section of what follows, and a word
   `x[y]:5` makes a column (`SpacedTypeValueWord`). In the document that column replaces an `x`
   before it and yields to one after it (`ValueWordOverwrites`). A column whose name holds a blank
   or a `[` is read under a part of its name (`SpacedNameIsCut`, `BracketNameIsCut`).
2. **Redaction.** A key of a document is overwritten if and only if some changed field trims to
   it and the registry redacts that field (`RedactionCoverage`): any configured name is the field,
   trimmed or not, or else the first entry of its table that names it asks for redaction
   (`DetectedFields`). An INSERT shows the mark under such a key, and else null, the parsed value or
   the text of its last column of that name (`InsertShows`). For an INSERT into a plain table
   the two-run law is exact, after any columns the reader can be followed through (`Tracked`) and
   before any columns at all. A value behind which nothing is open lands in its own column, or in
   the one open in front of it; two such values give one event if and only if, at that name, a
   later column replaces them, a redacted column covers it, or their cells are the same
   (`EventsAgreeExactly`). So, for a redacted field without a `$.` prefix and values that start a
   word and end in no quote (`StartsAWord`), the event tells nothing of the value if and only if no
   column is open in front of the field (`HiddenExactlyWhenClosed`, `RedactionIsExact`). For the
   other direction the text of an open column has to be shown (`ShownAsText`): not covered, not
   replaced, not called `data`, and no JSON object or array. With nothing open in front of them,
   several values of the field can differ (`InsertRedaction`).
   For every kind of change, two printable lines that differ only in the value of a field hidden in
   both give equal events; `Printable` is `PlainTable`, `WellFormed` and `Faithful` together
   (`PrintedRedaction`), and `Faithful` cannot be dropped (`QuoteShowsHiddenValue`).
   A field counts as changed by an UPDATE if and only if its cells differ (`PrintedFieldChanged`).
   One that does not is shown as it is, whatever the registry says of it, provided that no key with
   a `$.` prefix trims to its name (`UnchangedFieldIsNotCovered`, `UnseenChangeIsShown`).
3. **Tamper evidence.** Two accepted tables with one last hash hold the same payloads, or the
   walk back from their last rows ends at two different texts with one digest
   (`SameHead`, `TamperEvidence`). The digest is any function to 64 hexadecimal digits; it is
   never taken to be injective, so no conclusion rests on the mere existence of a collision.
   The condition on the first row cannot be dropped: every accepted table of two rows yields an
   accepted table of one with the same last hash and no collision (`UnsafeTableForges`).
4. **Exact loss accounting.** What is stored, queued and batched is an increasing selection of
   the positions emitted, and the missing positions are those evicted at the cap or forgotten
   after a failed pool checkout (`LossAccounting`). Nothing is missing if and only if each turn of
   the run writes nothing, succeeds, finds the retry queue empty when the checkout fails, or finds
   room for all it holds when the insert fails (`ConservedByGuards`).
5. **The whole run.** The verifier stops exactly at the first stored row that follows a gap or
   whose event it cannot re-create, or the two texts named by `Blame` collide
   (`VerifierFindsFirstFault`). So, that collision aside, a table is accepted if and only if it
   holds an unbroken prefix of the emitted chain made of canonical events (`WholeRunAgreement`).
   The one condition on the events is that the first one's type is shorter than 64 characters.
6. **Truncating escape.** The buffer holds the escape of the longest source prefix that fits,
   the NUL, and its old contents after that; decoding the output as a JSON string gives exactly
   that prefix (`JsonEscape`).

## Where the code and its documentation differ

The model follows the code.

- README.md:191 writes the hashed fields one after the other; the code joins them with `|`
  (forwarder/src/hashchain.rs:49-52).
- README.md:194 says that tampering with any event breaks the chain. The verifier reads the six
  hashed columns and the two hashes only (`OnlyHashedColumnsCount`), and rows missing at the end
  leave an accepted prefix (`WholeRunAgreement`).
- README.md:156 calls WAL events `DML_CHANGE`; the code emits `DATA_CHANGE`
  (forwarder/src/walcapture.rs:321).
- README.md:172 describes tracking fields inside a JSONB column. The code compares whole columns
  (forwarder/src/sensitive.rs:147-158): the documents it diffs have one key a column, and the entry
  `$.card_number` of the README's example redacts nothing inside `data` (`NestedFieldIsNotCovered`,
  `CardNumberIsNotCovered`).
- README.md:157 lists heartbeats as audit events; they go to GELF and never enter the chain
  (forwarder/src/health.rs:123-146).

## Reading notes

- The printer is that of PostgreSQL's `test_decoding` plugin, the format the reader is written for
  (forwarder/src/walcapture.rs:354-388 shows lines of it): a blank and `name[type]:value` per column,
  quotes doubled in quoted values, `old-key:` and `new-tuple:` around the tuples of an UPDATE that
  carries its old key, `(no-tuple-data)` for a tuple without data.
- Names and types are those of the printed line, after PostgreSQL's own quoting.
- `Readable` is what the reader needs to find a column in one word: a name without white space and
  `[`, a type without white space and `:`, and an unquoted value without white space that starts
  with no quote. `WellFormed` asks that every column be readable or that the reader skip every word
  of it. `Faithful` asks that no readable quoted value end in a quote. `PlainTable` asks for a
  schema without `.` and `:` that starts with no white space, and a table without `:` that ends with
  none. All four can be checked on the row before it is printed.
- `Tracked` asks that, with nothing open, each item be a marker, readable or skipped, and that, inside
  an open column, each be a marker or a readable column whose quoted text does not start with white
  space. `LeftOpen` tells from the row alone whether a column is open after it.
- JSON objects are maps; `serde_json` iterates them in key order (`KeyOrder.SortedKeys`).
- The digest, the JSON parser, the JSON serializer and the rendering of a stored event time are
  function parameters. `Canonical` is the condition on an event time under which the verifier
  re-creates the hashed text.
- An event is any JSON value the processor can take: setting a hash field on a value that is neither
  an object nor null panics (forwarder/src/hashchain.rs:27), and so `Chainable` is asked for.
- `session_user` is a reserved word of SQL. The model takes the column that
  ext/vibe_audit--1.1.sql:11 declares wherever the verifier names it.
- A failed INSERT stores nothing but may use up ids; rows of one INSERT take ids in VALUES order.

## Model

| member | source | states |
|---|---|---|
| `ChangeLine.ParseColumnValues` | forwarder/src/walcapture.rs:206-266 | the nested loops end on any text and report what the reading function reports, never more columns than the text has words |
| `ChangeLine.ScanQuoted` | forwarder/src/walcapture.rs:233-250 | the inner loop returns the quoted text and the index of the last word it used |
| `ChangeLine.ReadChangeLine` | forwarder/src/walcapture.rs:178-204 | the two searches for a colon, the trims and the loops over the columns give the change the reading function gives, or nothing |
| `ChangeLine.MarkersSetSection` | forwarder/src/walcapture.rs:214-224 | the words `old-key:` and `new-tuple:` set the section, whatever it was |
| `ChangeLine.QuotedValueNeverEndsInQuote` | forwarder/src/walcapture.rs:233-252 | whatever follows, a value read from a quoted text does not end in a quote |
| `Text.UndoubleDouble` | forwarder/src/walcapture.rs:251 | undoubling quotes inverts doubling them, for every string |
| `Text.UndoubleExact` | forwarder/src/walcapture.rs:251 | undoubling goes run by run: `n` quotes become `(n + 1) / 2` and every other character stays |
| `Text.TrimEndQuotes` | forwarder/src/walcapture.rs:242-244 | cuts off quotes and nothing else, and all of them |
| `Text.WhiteSpaceIs` | forwarder/src/walcapture.rs:210 | white space is the 25 characters of the Unicode property, one by one |
| `Text.TrimExact` | forwarder/src/walcapture.rs:179-193 | cuts white space off both ends, and all of it |
| `Text.TrimPathExact` | forwarder/src/sensitive.rs:97 | takes every `$.` off the front of a path and nothing else |
| `TestDecoding.ScanReadsValue` | forwarder/src/walcapture.rs:233-250 | the inner loop stops at the true closing quote of every value not ending in a quote, the quote run being even at each word boundary before |
| `TestDecoding.RunStaysEven` | forwarder/src/walcapture.rs:233-250 | as the loop takes in a printed value from an even quote run, the run behind it stays even |
| `TestDecoding.ReadPrinted` | forwarder/src/walcapture.rs:206-266 | for items that are all readable or skipped (`WellFormed`), reading gives the readable columns, in order and flagged by section, white space collapsed, if and only if no readable quoted value ends in a quote |
| `ReaderState.ReadsOn` | forwarder/src/walcapture.rs:206-266 | whatever stands after them, items that are readable or skipped and hold no value ending in a quote are read as themselves and leave the reader in their section |
| `ReaderState.StateLaw` | forwarder/src/walcapture.rs:215-263 | whatever stands behind a row, the line is read as the rest is read from the state the row leads to: the columns reported and the one still open |
| `ReaderState.TameIsTracked` | forwarder/src/walcapture.rs:215-263 | a row of readable columns whose quoted texts do not start with white space can be followed from any state |
| `ReaderState.OpenExactly` | forwarder/src/walcapture.rs:233-252 | a column is open after a row if and only if, going back over empty values and unquoted ones that do not close, the first quoted value ends in a quote |
| `ReaderState.RowLeftOpen` | forwarder/src/walcapture.rs:242-251 | a column still open at the end of the line is reported last, with the undoubled longest part of the held text that does not end in a quote |
| `ReaderState.LastColumnLosesQuotes` | forwarder/src/walcapture.rs:242-251 | the last column of a line, with nothing open in front of it, is reported without the quotes its value ends in |
| `LineRoundTrip.LineHead` | forwarder/src/walcapture.rs:178-204 | schema and table come back if and only if they are plain (`PlainTable`); then so does the command, and the column text is cut out whole |
| `LineRoundTrip.ReadExactly` | forwarder/src/walcapture.rs:178-193 | a line is read as a change if and only if, trimmed, it starts with `table ` and holds two colons |
| `LineRoundTrip.UnqualifiedTableIsPublic` | forwarder/src/walcapture.rs:195-199 | a table printed without a schema is read as one in `public` |
| `LineRoundTrip.LineRoundTrip` | forwarder/src/walcapture.rs:178-266 | a printed line whose columns are all readable or skipped (`WellFormed`) is read back as its change if and only if the table is plain (`PlainTable`) and no readable quoted value ends in a quote (`Faithful`) |
| `LineRoundTrip.SplitRoundTrip` | forwarder/src/walcapture.rs:268-272 | for a plain table and well-formed, faithful columns, splitting what was read gives the two printed tuples; text inside readable values makes no column and changes no section |
| `LineRoundTrip.CollapseIsIdentity` | forwarder/src/walcapture.rs:210-249 | a quoted value comes back unchanged exactly when its white space is single blanks |
| `ReaderState.BlankCloses` | forwarder/src/walcapture.rs:233-252 | a quoted value that starts with white space closes an open column at its own opening quote, and its words are read as if they stood between columns |
| `MisreadColumns.DroppedExactly` | forwarder/src/walcapture.rs:215-260 | a printed column leaves no trace, whatever follows and in either section, if and only if the reader skips every word of it |
| `MisreadColumns.SpacedTypeReadsOn` | forwarder/src/walcapture.rs:210-262 | a column whose type holds a blank is not read as itself: the rest of its type and its value are read as if they stood between columns, and the first word makes a column only of a colon before the blank |
| `MisreadColumns.SpacedTypeIsLost` | forwarder/src/walcapture.rs:225-260 | such a column is dropped in every context if and only if there is no colon before the blank and each later word of it is skipped |
| `MisreadColumns.SpacedTypeValueWord` | forwarder/src/walcapture.rs:215-260 | one word in the value of such a column, the others skipped: a marker changes the section of what follows, a word with `[` and then `:` makes a column, any other does nothing |
| `MisreadColumns.SpacedNameIsCut` | forwarder/src/walcapture.rs:210-229 | a column whose name holds a blank is read under the part behind it, if the words before it are skipped |
| `MisreadColumns.BracketNameIsCut` | forwarder/src/walcapture.rs:226-230 | a column whose name holds a `[` is read under the part before it |
| `ReaderState.QuotedReadsOn` | forwarder/src/walcapture.rs:233-252 | whatever follows a readable quoted value, the reader holds it, collapsed, with its closing quote, and stops there if and only if the value does not end in a quote; otherwise it goes on with the words after it |
| `ReaderState.QuoteCarriesNext` | forwarder/src/walcapture.rs:233-252 | a value that ends in a quote does not close: it and the next column, whose quoted value starts with a word and ends in no quote, are read as one column that holds both |
| `WalEvent.ColumnsToJson` | forwarder/src/walcapture.rs:274-302 | the insertion loop builds a document whose keys are the column names; the last column of a name holds null for the text `null`, the parsed value for `data` and for objects and arrays, and its text otherwise |
| `WalEvent.DocumentKeys` | forwarder/src/walcapture.rs:274-302 | the document's keys are exactly the column names |
| `WalEvent.DocumentExact` | forwarder/src/walcapture.rs:282-302 | each key has the value of the last column of that name |
| `WalEvent.ParseTestDecoding` | forwarder/src/walcapture.rs:104-170 | the loops of the flow yield the event of the parsed documents, redacted for the detected fields, or nothing |
| `WalEvent.TableLinesStartWithTable` | forwarder/src/walcapture.rs:110-114 | a line read as a change is no transaction boundary |
| `WalEvent.EventsExactly` | forwarder/src/walcapture.rs:104-136 | a line yields one event if it is read as an INSERT, an UPDATE or a DELETE, and none otherwise |
| `WalEvent.EventSays` | forwarder/src/walcapture.rs:304-346 | every literal member of the event, its position and transaction, and the changed and sensitive names as arrays in the order listed |
| `WalEvent.RedactionCoverage` | forwarder/src/walcapture.rs:138-156 | a key is overwritten if and only if a changed field trims to it and is redacted; other keys keep their values and no key comes or goes |
| `WalEvent.UnchangedFieldIsNotCovered` | forwarder/src/walcapture.rs:138-156 | a field equal in both documents of an UPDATE, with no `$.` key that trims to it, reaches the event unredacted whatever the registry says |
| `WalEvent.NestedFieldIsNotCovered` | forwarder/src/sensitive.rs:128-158 | with no redacting verdict on a changed field that trims to `data`, every value of `data` is shown whole, whatever the registry says of names inside it |
| `WalEvent.CardNumberIsNotCovered` | forwarder/src/sensitive.rs:88-140 | a table whose one entry is `$.card_number` redacts a field `card_number` and nothing inside `data` |
| `WalEvent.OneValueDecides` | forwarder/src/walcapture.rs:116-169 | two INSERTs read alike but for one value give one event if and only if a later column of its name replaces it, a redacted column covers its name, or the cells are the same |
| `WalEvent.HiddenValueIsNotInEvent` | forwarder/src/walcapture.rs:138-169 | documents that differ only in a hidden field give the same event |
| `WalEvent.HiddenLinesAgree` | forwarder/src/walcapture.rs:104-170 | lines read alike but for a hidden field give the same events |
| `RedactedLines.PrintedChangeEvent` | forwarder/src/walcapture.rs:304-346 | a printable change (`PlainTable`, `WellFormed`, `Faithful`) yields one event that says what `EventSays` lists and shows the change's own old and new documents, redacted |
| `RedactedLines.OtherCommandYieldsNothing` | forwarder/src/walcapture.rs:116-136 | a line of any other command, such as TRUNCATE, yields no event |
| `RedactedLines.InsertShows` | forwarder/src/walcapture.rs:138-169 | under each name a printable INSERT shows the literal `[REDACTED]` if a redacted column trims to it, else null, the parsed value or the text of the last column of that name |
| `RedactedLines.ConfiguredIsRedacted` | forwarder/src/sensitive.rs:96-105 | a field named at any place of the configured list, with no `$.` in front, is shown as `[REDACTED]` by every printable INSERT that has it |
| `RedactedLines.DataIsShown` | forwarder/src/walcapture.rs:290-297 | a `data` column that parses and that nothing redacted covers is shown as the parsed value |
| `RedactedLines.PrintedRedaction` | forwarder/src/walcapture.rs:104-170 | the printable case of `FrontsDecide`, for every kind of change: lines that are `PlainTable`, `WellFormed` and `Faithful` and differ only in the value of a field hidden in both rows give equal events |
| `RedactedLines.FrontsDecide` | forwarder/src/walcapture.rs:104-170 | lines whose fronts lead the reader to states that agree but for the values of a field hidden in both give equal events, whatever stands behind the fronts |
| `RedactedLines.OneDocumentHidesAll` | forwarder/src/walcapture.rs:116-143 | with one document a field is hidden exactly when present, redacted by the registry and not prefixed with `$.` |
| `ExactRedaction.EventsAgreeExactly` | forwarder/src/walcapture.rs:104-170 | for any row and any values of a column behind which nothing is open, two INSERTs give one event if and only if, at the name the value lands at, a later column replaces it, a redacted column covers it, or the cells are the same |
| `ExactRedaction.RedactionIsExact` | forwarder/src/walcapture.rs:138-169 | two values of a redacted field, each starting a word and ending in no quote, give one event if and only if no column is open in front of them or they are the same but for white space runs; the text of an open column must be shown (not covered, replaced, called `data` or a JSON object or array) |
| `ExactRedaction.HiddenExactlyWhenClosed` | forwarder/src/walcapture.rs:138-169 | on the same conditions the event is the same for all such values if and only if no column is open in front of the field |
| `ExactRedaction.InsertRedaction` | forwarder/src/walcapture.rs:104-170 | INSERTs that differ in values of a redacted field with nothing open in front of them and no quote at their end give one event, whatever columns stand behind them |
| `ExactRedaction.QuoteShowsHiddenValue` | forwarder/src/walcapture.rs:104-170 | `Faithful` cannot be dropped from `PrintedRedaction`: for a two-column row of a value that ends in a quote and a redacted field, the first column shown as text, its other conditions hold and the events are equal if and only if the hidden values are, white space collapsed |
| `ExactRedaction.CarriedEvent` | forwarder/src/walcapture.rs:233-288 | the event of such a two-column row shows the second value under the first column's name |
| `RedactionLimits.ValueWordOverwrites` | forwarder/src/walcapture.rs:225-288 | a word with `[` and then `:` in a value whose type holds a blank becomes a column; in the document it replaces one of its name before it, and it is the last of its name if and only if no column behind it has that name |
| `RedactionLimits.SpacedNameIsNotCovered` | forwarder/src/walcapture.rs:210-230 | the value of a column whose name holds a blank is shown under the part behind the blank, if that is not redacted, whatever the registry says of the full name |
| `RedactionLimits.PrintedFieldChanged` | forwarder/src/sensitive.rs:143-164 | a column of an UPDATE counts as changed if and only if its cells differ; unless it is called `data`, they are the same if and only if the texts read are equal or are one JSON object or array |
| `RedactionLimits.UnseenChangeIsShown` | forwarder/src/walcapture.rs:138-156 | in a printable UPDATE, a column whose cells are the same and to which no `$.` column trims reaches the event unredacted in both documents, whatever the registry says |
| `RedactionLimits.NullAndItsTextAreOne` | forwarder/src/walcapture.rs:290-302 | an UPDATE from NULL to the text `null`, or back, changes no field |
| `Sensitive.DiffFields` | forwarder/src/sensitive.rs:143-164 | the two loops list the differing keys of the new document, then the keys missing from it |
| `Sensitive.DiffExact` | forwarder/src/sensitive.rs:143-164 | once each, exactly the keys whose lookup differs |
| `Sensitive.DiffOrder` | forwarder/src/sensitive.rs:143-164 | the keys of the new document come first, then the missing ones, each part in key order |
| `KeyOrder.LeqExact` | forwarder/src/sensitive.rs:148-155 | a prefix comes before the longer key; otherwise the first differing character decides |
| `Sensitive.DiffLaws` | forwarder/src/sensitive.rs:143-164 | empty exactly for equal documents, and the same keys in either direction |
| `Sensitive.Detect` | forwarder/src/sensitive.rs:88-126 | the global pass and the nested table pass compute the detected matches |
| `Sensitive.DetectedFields` | forwarder/src/sensitive.rs:88-126 | from the configuration alone: a listed field is matched to be redacted if any configured name is it or its trimmed form; otherwise the first entry of its table that names it gives the flag |
| `Sensitive.DetectExact` | forwarder/src/sensitive.rs:88-126 | a match is reported if and only if its field was listed and its flag is the verdict |
| `Sensitive.DetectOnce` | forwarder/src/sensitive.rs:108-122 | fields listed once are matched at most once |
| `Sensitive.DetectOrder` | forwarder/src/sensitive.rs:94-122 | for fields listed once: first the configured ones, then those of the table, each in the order listed |
| `Sensitive.Document.Redact` | forwarder/src/sensitive.rs:128-140 | in place, exactly the present keys named by a redacting match are overwritten |
| `Sensitive.RedactionExact` | forwarder/src/sensitive.rs:88-140 | through both passes, a key is overwritten if and only if a listed field trims to it and is redacted |
| `Sensitive.PrefixedKeyIsNeverRedacted` | forwarder/src/sensitive.rs:134-137 | a key that starts with `$.` is never overwritten |
| `Payload.EncodeInjective` | forwarder/src/hashchain.rs:41-53 | with no `\|` in the first five fields the payload determines all six |
| `Payload.PayloadParts` | forwarder/src/hashchain.rs:41-53 | cut at its first five bars, none standing in the first five fields, the payload gives event_type, event_time, session_user, database, command_tag and query_text in this order, empty where there is no string |
| `Payload.EncodingIsUnique` | forwarder/src/hashchain.rs:41-53 | a payload stands for one list of fields if and only if no field holds a `\|` |
| `Chain.ShortTypeIsSafe` | forwarder/src/hashchain.rs:49-52 | a payload whose event type is shorter than 64 characters cannot pass for a digest and a payload |
| `Chain.SameHead` | forwarder/src/hashchain.rs:20-23 | equal heads mean equal payload sequences, or the walk back finds a collision |
| `Chain.FoundInputsWereHashed` | forwarder/src/hashchain.rs:20-23 | both texts of a reported collision were hashed by the chains compared |
| `Chain.UnsafeGenesisForges` | forwarder/src/hashchain.rs:20-23 | without the condition on first payloads two different payload sequences share a head with no collision |
| `HashChains.HashChain.constructor` | forwarder/src/hashchain.rs:10-15 | a chain starts empty |
| `HashChains.HashChain.Apply` | forwarder/src/hashchain.rs:17-34 | the event comes back with the two hash fields set to the heads before and after it and every other field as it was; the new head is the digest of the old one and the payload, and the emitted sequence grows by that event |
| `HashChains.LinkedKeepsPayload` | forwarder/src/hashchain.rs:18-28 | setting the hash fields does not change the payload |
| `Storage.RowOfEvent` | forwarder/src/writer.rs:91-112 | every column is read from the event field of its own name without loss, for any event whose fields hold a row |
| `Storage.MissingFields` | forwarder/src/writer.rs:91-112 | an event without fields is stored as UNKNOWN at 1970-01-01T00:00:00Z, not successful, all other columns NULL |
| `Storage.IntIs` | forwarder/src/writer.rs:96-98 | an integer column takes a number of 64 bits modulo 2^32 in signed range, and NULL for anything else |
| `Storage.ColumnOrder` | forwarder/src/writer.rs:67-72 | the 18 parameters of a row stand in the order of the column list |
| `Storage.BuildInsert` | forwarder/src/writer.rs:67-132 | placeholders are numbered 1 to 18n with the three casts, VALUES lists are separated by commas, parameter 18i+j is column j of event i, and the statement inserts the rows of the events in order |
| `Storage.ExecutesRowByRow` | forwarder/src/writer.rs:74-137 | one multi-row statement does what inserting the rows one by one would |
| `Writer.BatchWriter.EnqueueRetries` | forwarder/src/writer.rs:166-179 | the queue becomes the newest 10,000 of the queue and the events |
| `Writer.BatchWriter.WriteBatch` | forwarder/src/writer.rs:46-164 | for each outcome the stored events and the queue are those of one flush, after a failed insert the queue is the last min(10,000, total) of what waited, rows already stored stay, and the placeholder counter fits its 32 bits |
| `Pipeline.RunIsBounded` | forwarder/src/main.rs:151-154 | at every turn the queue is at most 10,000 long and the batch shorter than 100 |
| `Pipeline.LossFreeFlush` | forwarder/src/writer.rs:51-158 | a flush loses nothing if and only if there is nothing to write, it succeeds, the checkout fails with no retries waiting, or the insert fails below the cap |
| `Pipeline.LossFreeRun` | forwarder/src/writer.rs:51-158 | a run loses nothing if and only if every turn is loss-free in the state the turns before it lead to |
| `Pipeline.RunConserves` | forwarder/src/main.rs:131-163 | each emitted event is stored, waiting or lost, and only once |
| `Pipeline.ConservationExact` | forwarder/src/main.rs:131-163 | stored, queued and batched together are the emitted sequence if and only if nothing was lost |
| `Pipeline.ConservedByGuards` | forwarder/src/main.rs:131-163 | stored, queued and batched together are the emitted sequence if and only if each turn writes nothing, succeeds, fails the checkout with no retries waiting, or fails the insert below the cap |
| `Pipeline.RunKeepsOrder` | forwarder/src/main.rs:131-163 | what is held is an order-preserving, duplicate-free selection of what was emitted |
| `Pipeline.LossAccounting` | forwarder/src/writer.rs:51-179 | the missing positions are exactly those evicted at the cap or forgotten after a failed checkout |
| `Pipeline.RunMirrors` | forwarder/src/main.rs:131-163 | the run on events is the run on positions read through the emitted sequence |
| `Processors.Processor.OnEvent` | forwarder/src/main.rs:133-155 | an arrival is chained, batched and flushed when the batch reaches 100, as one pipeline step on the emitted event |
| `Processors.Processor.OnTick` | forwarder/src/main.rs:156-161 | a tick flushes a batch that is not empty |
| `Processors.Process` | forwarder/src/main.rs:126-164 | after any inputs the objects stand where the pipeline run on the emitted chain does |
| `VerifyChain.Verify` | ext/vibe_audit--1.1.sql:90-140 | valid if and only if every row links and re-hashes; otherwise the id is that of the least failing row and the count its position |
| `VerifyChain.AcceptedIs` | ext/vibe_audit--1.1.sql:107-138 | a table is accepted if and only if each row holds its predecessor's hash, the first the empty text, and the digest of that hash and its own payload |
| `VerifyChain.GoodRecordsFormChain` | ext/vibe_audit--1.1.sql:107-136 | the hash of each good record is the head of the chain of payloads up to it |
| `VerifyChain.TamperEvidence` | ext/vibe_audit--1.1.sql:107-135 | accepted tables with one last hash have equal length and payloads, or an explicit collision |
| `VerifyChain.TamperEvidenceFields` | ext/vibe_audit--1.1.sql:107-135 | with no `\|` in five columns they agree on every hashed column, or an explicit collision |
| `VerifyChain.UnsafeTableForges` | ext/vibe_audit--1.1.sql:107-135 | from every accepted table of two rows comes an accepted table of one row with the same last hash, other payloads and no collision |
| `VerifyChain.OnlyHashedColumnsCount` | ext/vibe_audit--1.1.sql:108-113 | columns outside the payload and the hashes do not affect the verdict |
| `VerifyChain.RestartIsReported` | ext/vibe_audit--1.1.sql:100-124 | a row with an empty previous hash after an earlier row is reported at or before that row |
| `VerifyChain.PayloadAgrees` | ext/vibe_audit--1.1.sql:109-113 | the verifier re-creates the hashed payload of an event if and only if its type is a string and its stored time renders as the hashed one |
| `WholeRun.VerifierFindsFirstFault` | ext/vibe_audit--1.1.sql:107-135 | the verifier stops exactly at the first gap or non-canonical event, or the texts blamed collide |
| `WholeRun.WholeRunAgreement` | forwarder/src/main.rs:126-164 | the stored table is accepted if and only if it is an unbroken prefix of the emitted chain of canonical events, or an explicit collision |
| `WholeRun.LosslessRunIsAccepted` | forwarder/src/main.rs:126-164 | a run that lost nothing, of canonical events, leaves an accepted table |
| `WholeRun.LossIsReported` | forwarder/src/writer.rs:51-158 | once an event later than a lost one is stored, a row no later than it is reported, or an explicit collision |
| `WholeRun.LaterLifeIsReported` | forwarder/src/hashchain.rs:10-15 | with rows of a later process life stored after earlier ones, whether or not it lost its first events, the verifier stops at its first stored row or before it, unless that life had chained exactly what the earlier rows hold, or an explicit collision |
| `WholeRun.LaterLifeFromItsFirst` | forwarder/src/hashchain.rs:10-15 | with the first event of the later life stored, the verifier stops at it or before, and no condition on event types is needed |
| `WholeRun.RunAndVerify` | forwarder/src/main.rs:126-164 | the processor's own table, verified, is valid if and only if the stored part is an unbroken canonical prefix, or an explicit collision |
| `WholeRun.StoredRowIs` | forwarder/src/writer.rs:91-130 | a stored row is that of its event as it arrived, with the heads before and after it in its two hash columns |
| `JsonEscape.PutByte` | ext/vibe_hooks.c:18-53 | one byte is escaped in place if it fits before the NUL, otherwise nothing is written; the bytes of each class are given one by one |
| `JsonEscape.Fill` | ext/vibe_hooks.c:16-54 | the loop stops after the longest prefix that fits and writes nothing past it |
| `JsonEscape.EscapeLength` | ext/vibe_hooks.c:18-53 | escaping adds one byte for each quote, backslash, newline, return and tab and five for each other control byte |
| `JsonEscape.JsonEscape` | ext/vibe_hooks.c:3-63 | the whole buffer afterwards: escaped longest prefix, NUL, old contents; the output decodes to that prefix; NULL and empty buffers included |
| `JsonEscape.DecodeEscape` | ext/vibe_hooks.c:18-53 | reading JSON strings by section 7 of RFC 8259 inverts the escaping of every byte sequence |

## Left out

- StateLaw: an open column is followed through every readable value that does not start with white space; BlankCloses says what is read of one that does.
- EventsAgreeExactly: speaks of an INSERT and of values behind which nothing is open; a value that itself leaves a column open takes later columns in, and the two rows are then not compared.
- SpacedTypeValueWord: speaks of one live word without quotes; a word that opens a quote is covered by SpacedTypeReadsOn, which leaves the reader at work.
- HashChain.Apply: the event count is unbounded; the source keeps it in 64 bits for the health page only.
- Processor.OnEvent: counters, GELF forwarding and the health state are not part of this model; the emitted sequence is what GELF is sent.
- BatchWriter.WriteBatch: the outcome is given from outside, so protocol limits (a statement takes at most 65,535 parameters), cast failures and connection errors are all a failed statement.
- BatchWriter.WriteBatch: the statement is a list of numbered placeholder tuples; its text and the decimal digits of the numbers are not modelled.
- Verify: takes the rows as `ORDER BY id` delivers them; partitions and concurrent inserts are not modelled.
- JsonEscape: a NUL byte ends the source, as in C; UTF-8 validity of a truncated text is not modelled, since the escaper works on bytes.
- JsonEscape.Decode: escapes for code points in the surrogate range are refused; the escaper writes none.
- Hash inputs are texts; UTF-8 encoding, which maps different texts to different bytes and respects concatenation, is not modelled.
- PostgreSQL hooks, event assembly with `snprintf`, UDP and GELF transport, configuration from the environment: input and output.
- The refresh of the sensitive-field cache and `ensure_partition`: database access; the registry is a value.
- Reconnection and polling of the replication slot: input and output; lines arrive as given.
- Node-tag tables, GUC registration, health page, deployment and the older SQL versions: no decision is made there.

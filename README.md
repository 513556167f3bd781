# usenetr — a Dafny model of message ingestion and versioned persistence

This project models the core of `usenetr.py`, a small Usenet reader:

- `header_normalise` turns the header block of a message (a list of lines) into
  an ordered list of `(key, value)` fields. The header block ends at the first
  blank line. Continuation lines that start with a space or a tab are folded
  into the preceding header. Each logical line is split at its first colon,
  the key is lower-cased and the value is stripped.
- `summary_make` keeps the fields whose key is one of `from`, `subject`,
  `date`, `lines`, `references` and `message-id`. When a key repeats, the
  last value wins.
- `Usenetclient` holds two maps keyed by message-id: the raw messages and
  their summaries.
  - `message_add` files a message and its summary under its message-id.
  - `state_save` writes both maps to a shelf in the generation (`messages.N`,
    `heads.N`) that the active-version pointer `activever` does not name. The
    pointer is written last, after the shelf has been closed and reopened.
  - `state_load` reads back the generation the active version names.
  - `dbnew` starts empty, and `dbdump` stops when there is no pointer.

Modules:

- `Results`: Option and Result.
- `Text`: the Python 2 string primitives `strip`, `lower` and `str(int)`.
  - `strip` removes the C-locale whitespace characters space, tab, LF, CR,
    VT and FF.
  - `lower` affects ASCII letters only.
- `Header`: `header_normalise`.
  - The specification functions are `Scan`, `LogicalLines`, `ParseFields`
    and `Normalise`.
  - `Headers` is an independent front-to-back reference definition.
  - The methods `FoldHeaderBlock`, `SplitFields` and `HeaderNormalise` keep
    the source's two loops.
- `Summaries`: `summary_make`, with the specification fold `Collect` and the
  methods `CollectFields` and `SummaryMake`.
- `Client`: the client.
  - `Shelf` is a class over a `map<string, Value>`; `Put` is one store
    assignment.
  - `Insert` is the effect of `message_add`, given the summary outcome.
  - `LoadInto` is `state_load`. `SaveWrites` and `Apply` are the writes of
    `state_save` and their effect.
  - `UsenetClient` is the class with the two map fields.

Exceptions become values:

- a logical line with no colon is `MalformedHeader(line)`, the `ValueError`
  of the tuple unpacking;
- a failed lookup is `KeyMissing(key)`, the `KeyError`.

Crash safety of the save protocol is stated on the sequence of writes. A save
interrupted after any proper prefix of its writes loads exactly as before.
After all of its writes it loads exactly the saved maps.

The model follows the code, including where it differs from what a reader of
the program might expect:

- `state_load` of a shelf without `activever` raises `KeyError`; it does not
  give an empty store. `LoadInto` returns `KeyMissing("activever")`.
- `message_add` accepts any message-id, including an empty one.
- Loading is not atomic. `self.messages` is assigned before `heads.N` is
  read, so a missing heads map leaves the new messages in place with the old
  heads. `LoadInto` keeps this order.

## Model

| member | source | states |
|---|---|---|
| Text.StripStartAt | usenetr.py:10 | stripping the front removes exactly a whitespace prefix and stops at a non-space |
| Text.StripEndAt | usenetr.py:10 | stripping the end removes exactly a whitespace suffix and stops at a non-space |
| Text.StripAt | usenetr.py:10 | `strip()` (`Strip`) is a slice `s[i..j]` with only whitespace outside it and non-space characters at both of its edges |
| Text.StripEmpty | usenetr.py:10-11 | a line strips to the empty string exactly when every character is whitespace |
| Text.LowerChar | usenetr.py:24 | an ASCII capital maps to its small letter; every other character is unchanged; no capital remains |
| Text.Lower | usenetr.py:24 | `lower()` keeps the length and lower-cases character by character |
| Text.NatStr | usenetr.py:72-73 | the decimal name of a natural number is non-empty, has no sign, and has at least two digits from 10 on |
| Text.NatStrInjective | usenetr.py:72-73 | different natural numbers have different decimal names |
| Text.StrInjective | usenetr.py:72-73 | `str` (`Str`) is injective on integers, so `messages.` + str(v) names exactly one generation |
| Header.BlockEndIsFirstBlank | usenetr.py:9-12 | the header block ends at the first all-whitespace line: no line before it is blank, and the line at it is blank |
| Header.BlockEndAt | usenetr.py:9-12 | the first-blank-line characterisation determines where the block ends |
| Header.BodyIsIgnored | usenetr.py:11-12 | after the first blank line, the body is never looked at: any two bodies give the same header block and the same logical lines |
| Header.NoBlankLineAllHeader | usenetr.py:9-12 | a message with no blank line is all header |
| Header.ScanCons | usenetr.py:9-18 | the loop's left-to-right scan (`Scan`, one `Step` per line) can be unrolled from the front: the first line is the first step |
| Header.StepOn | usenetr.py:14-18 | a continuation appends " " and the stripped line to the current heading; any other line pushes the heading and starts a new one |
| Header.ContinuationRun | usenetr.py:14 | the number of leading continuation lines: every line before it starts with a space or a tab, and the line at it does not |
| Header.ContinuationStep | usenetr.py:14-15 | a leading continuation line is folded into the heading being built |
| Header.OpenerStep | usenetr.py:16-18 | a non-continuation line finishes the current heading and opens a new one |
| Header.ScanIsHeaders | usenetr.py:9-19 | the scan equals the reference definition: the current heading plus the leading continuations, then one header per opening line with its continuations folded in |
| Header.LogicalLinesAreHeaders | usenetr.py:7-21 | after the placeholder is dropped, the logical lines are the headers of the header block; leading continuation lines before any header are dropped with it |
| Header.ScanLength | usenetr.py:14-19 | each non-continuation line adds exactly one entry to the scan |
| Header.LogicalLinesCount | usenetr.py:14-21 | there is one logical line per non-continuation line of the header block |
| Header.FirstColon | usenetr.py:23 | the index of the first colon: no colon before it, a colon at it, or the length when there is none |
| Header.SplitField | usenetr.py:23-24 | a line splits exactly when it has a colon; without one, the error names the line; with one, the key is the lower-cased text before the first colon and the value is the stripped rest |
| Header.ParseFields | usenetr.py:20-25 | parsing succeeds exactly when every logical line has a colon, and then gives one field per line, in order, each the split of its line |
| Header.ParseFieldsFirstError | usenetr.py:21-23 | parsing fails with the first logical line that has no colon |
| Header.ParseFieldsAllOk | usenetr.py:20-25 | when every line has a colon, the list of per-line splits is the result |
| Header.FoldHeaderBlock | usenetr.py:7-19 | the first loop, with its early break at the blank line, computes exactly the logical lines of the message |
| Header.SplitFields | usenetr.py:20-25 | the second loop computes exactly the parse of the logical lines, including the error at the first colon-less line |
| Header.HeaderNormalise | usenetr.py:5-25 | `header_normalise` returns `Normalise` of the message, the parsed fields of its logical lines, or the malformed-header error |
| Summaries.Collect | usenetr.py:29-35 | every key of a summary is one of the six interesting keys |
| Summaries.CollectKeys | usenetr.py:30-35 | a key is in the summary exactly when it is interesting and some field has it |
| Summaries.CollectKeepsLast | usenetr.py:32-35 | a kept key maps to the value of the last field with that key |
| Summaries.CollectFields | usenetr.py:29-36 | the loop computes the fold of the fields |
| Summaries.SummaryMake | usenetr.py:27-37 | `summary_make` returns `SummaryOf` the message: the summary of the normalised header, or the error from `header_normalise` |
| Client.KeysDistinct | usenetr.py:72-73 | the shelf keys never collide: messages and heads keys differ from each other and from the pointer, and each names one generation |
| Client.InsertSpec | usenetr.py:94-99 | insertion (`Insert`) succeeds exactly when the header parses and has a message-id; it then files the message and its summary under that id, replacing any earlier entry, and changes nothing else |
| Client.InsertKeepsConsistent | usenetr.py:94-99 | insertion keeps both maps co-indexed, with every summary the summary of its message and filed under its own message-id |
| Client.SameIdOverwrites | usenetr.py:97-99 | a second message with the same message-id replaces the first entirely |
| Client.Shelf.constructor | usenetr.py:70 | a shelf opened on stored contents holds them, with an empty write log |
| Client.Shelf.Put | usenetr.py:87-88 | one store assignment updates one key and nothing else, and is appended to the shelf's write log, so the shelf always holds its opening contents with the logged writes applied in order (`Apply`) |
| Client.ApplySnoc | usenetr.py:87-91 | applying one more write to a shelf updates the result of the earlier writes |
| Client.ApplyConcat | usenetr.py:87-91 | applying two runs of writes one after the other is applying their concatenation |
| Client.TargetIsOther | usenetr.py:77-86 | the save target `Target` is 0 or 1; it differs from a stored integer pointer; it is 0 when there is no pointer |
| Client.LoadInto | usenetr.py:66-74 | loading succeeds exactly when the active version names a generation whose two maps are stored, and then yields them; a missing pointer raises with nothing changed; a failure never changes the heads |
| Client.LoadFailure | usenetr.py:71-73 | a failed load raises at the first lookup that fails (pointer, then `messages.v`, then `heads.v`); the maps are unchanged, except that when only `heads.v` fails the messages map already holds `messages.v` |
| Client.LoadReadsOnlyActive | usenetr.py:71-73 | loading reads only the pointer and the generation it names |
| Client.InterruptedSaveLoadsOld | usenetr.py:76-92 | after any proper prefix of a save's writes (`SaveWrites`), the shelf loads exactly as it did before the save |
| Client.LoggedSaveStopLoadsOld | usenetr.py:76-92 | a shelf whose write log stops after a proper prefix of a save's writes loads as it did before the save |
| Client.SaveResult | usenetr.py:87-91 | a complete save stores the messages and heads of the target generation, then the pointer to it |
| Client.CompletedSaveLoadsNew | usenetr.py:66-92 | after a complete save, the shelf loads exactly the saved maps, whatever it held before |
| Client.CommittedAtEveryStep | usenetr.py:76-92 | a shelf that names a complete generation names one after every prefix of a save |
| Client.SaveTwice | usenetr.py:76-92 | two saves in a row alternate the generation, and the shelf then loads the second save's maps |
| Client.UsenetClient.constructor | usenetr.py:41-43 | a new client starts with empty maps |
| Client.UsenetClient.DbNew | usenetr.py:41-43 | `dbnew` empties both maps, which are then consistent |
| Client.UsenetClient.MessageAdd | usenetr.py:94-99 | `message_add` either updates both maps under the message-id of `SummaryOf` the message, as `Insert` does, or returns the error with the maps unchanged; consistency is preserved |
| Client.UsenetClient.StateLoad | usenetr.py:66-74 | an empty name starts empty; otherwise the error and the new maps are those of loading the shelf |
| Client.UsenetClient.StateSave | usenetr.py:76-92 | the shelf's log grows by exactly the save's writes, `messages.t`, `heads.t`, then `activever`, in that order, and the shelf afterwards is the old shelf with them applied |
| Client.UsenetClient.DbDump | usenetr.py:45-51 | `dbdump` stops when the shelf has no pointer, and otherwise reads the stored pointer |

## Left out

- Shelve I/O: `shelve.open`, pickling and `close` are reduced to one map per
  shelf. `state_save` makes three writes, `messages.N`, `heads.N` and
  `activever`, and closes and reopens the shelf between the second and the
  third. The process may stop after any of them; the shelf's write log and
  the prefix lemmas cover every such point. A crash that tears a single write
  is not modelled.
- `dbdump` output: printing the version and the two maps is not modelled.
  Only the decision whether there is anything to dump is, and the
  `heads.N`/`messages.N` lookups after it are not.
- The `__main__` driver and the interactive reader `uigr.py` are not part of
  this model.
- There is no `get(id)` or lazy `dump()` operation in the code, so none is
  modelled.
- Client.LoadInto: shelf values are typed. A pointer that is not an integer,
  or a generation slot holding the wrong kind of map, is a `WrongKind` error
  here. Python would assign whatever object is stored.
- Client.UsenetClient.constructor: a Python instance has no `messages` or
  `heads` attribute before `dbnew` or `state_load`. The model starts with
  empty maps instead.
- Client.UsenetClient.StateSave: the pointer is compared with 0 as a typed
  value. Python 2's cross-type comparisons, such as `0.0 == 0` or
  `False == 0`, are not modelled.
- Text.Strip: only the C-locale whitespace set is modelled, and `lower` only
  on ASCII. Locale-dependent behaviour and Unicode strings are left out.
- Concurrency: two clients saving to the same shelf at the same time are not
  modelled.

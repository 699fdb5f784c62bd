# XML log writer (AL.Tools.Logger `XmlLogger`)

This project models the XML log writer of AL.Tools.Logger. The C# static class
`XmlLogger` keeps the path of the current log file in its `CurrentLog`
property. Its operations append `log_entry` elements to the `Log` root of that
file:

- `GetCurrentLog` keeps the cached path while its file exists. Otherwise it
  builds the name from the `AL-LogName` setting, or, when that setting is
  empty, from `"TEMP-"`, the two-digit year and the Julian-calendar day of the
  year that `JulianCalendar.GetDayOfYear` returns. It places
  the name in the assembly directory with `.xml`, creates an empty `<Log/>`
  document there when no file exists, and caches that path.
- `AddEntry(message)` resolves the log and appends one entry at the end.
- `AddEntry(exception)` logs the exception's message.
- `AddEntries(messages)` resolves the log once and appends one entry per
  message, in order, before saving once.

The model has three modules:

- `LogNaming` (`log_naming.dfy`) computes the file name: the decimal rendering
  of the Julian-calendar day of the year, the `yy` year, the temporary name,
  the configured name and the path.
- `LogStore` (`log_store.dfy`) gives the logger's state as a value. That
  value is the cached path plus a map from path to the file's entries, each
  entry a `create_date` stamp and a text. The module has the functions `Resolve`,
  `AppendOne` and `AppendBatch`, which say what one call does. Its lemmas say
  what holds across calls: resolution is idempotent, a cached file wins over
  the setting, a batch equals one `AddEntry` per message, and no other file
  changes.
- `XmlLogging` (`xml_logger.dfy`) is the class `XmlLogger`. Its fields
  `currentLog` and `files` are updated in place, and each of its methods is
  proved to leave the state that the matching `LogStore` function describes.
  `AddEntries` keeps the source's loop over the messages, which builds the
  document in memory before the single save.

The file system is the `files` map: a path string is in the map exactly when
a file exists under that exact string. The clock is passed in: the year, the
Julian-calendar day of the year that `GetDayOfYear` returns, and one formatted
timestamp per entry. The `AL-LogName` setting and the assembly directory are
passed in as strings too. In the source, `CurrentLog` starts as `null`; the
model uses `""` for both `null` and the empty string.

In the temporary name (XmlLogger.cs:104), the day of the year is written
without zero padding, and nothing separates it from the two-digit year. A
day-of-year value of 15 in 2024 gives `TEMP-2415`, as
`LogNaming.TempLogNameExample` states.

## Model

| member | source | states |
|---|---|---|
| `LogNaming.Decimal` | XmlLogger.cs:104 | the interpolated day of year is one or more decimal digits with no leading zero and no padding; it has one digit exactly when the number is below 10 |
| `LogNaming.DecimalRoundTrip` | XmlLogger.cs:104 | reading the rendered day of year back as a decimal number gives the original number |
| `LogNaming.DecimalInjective` | XmlLogger.cs:104 | two numbers render to the same digits if and only if they are equal |
| `LogNaming.TwoDigitYear` | XmlLogger.cs:104 | the `yy` format is exactly two digits whose value is the year modulo 100 |
| `LogNaming.TempLogName` | XmlLogger.cs:101-105 | the temporary name starts with `TEMP-`, followed only by digits, at least three of them |
| `LogNaming.TempLogNameInjective` | XmlLogger.cs:104 | two temporary names are equal if and only if the years agree modulo 100 and the Julian day-of-year values are equal |
| `LogNaming.TempLogNameLength` | XmlLogger.cs:104 | the day of year is not padded: days 1-9, 10-99 and 100-999 give names of 8, 9 and 10 characters |
| `LogNaming.TempLogNameExample` | XmlLogger.cs:104 | a Julian day-of-year value of 15 with the year 2024 gives `TEMP-2415` |
| `LogNaming.LogName` | XmlLogger.cs:98-105 | a non-empty setting is used verbatim; an empty one gives the temporary name |
| `LogNaming.LogPath` | XmlLogger.cs:107 | the path is the assembly directory, then the log name, then `.xml`, with nothing in between |
| `LogNaming.LogPathInjective` | XmlLogger.cs:107 | within one directory, two log names give the same path string if and only if they are equal |
| `LogStore.ConfiguredPath` | XmlLogger.cs:98-107 | with a non-empty setting the path is the assembly directory, the setting and `.xml`; with an empty one it is the assembly directory, `TEMP-`, the `yy` year, the unpadded day of year and `.xml` |
| `LogStore.HasCurrent` | XmlLogger.cs:94 | the cached log is usable exactly when its path is non-empty and a file exists under it |
| `LogStore.Resolve` | XmlLogger.cs:91-119 | afterwards the cached path is set and its file exists; every existing file keeps its contents; at most the cached path's file is added, and a created file has no entries |
| `LogStore.ResolveKeepsCurrent` | XmlLogger.cs:94-95 | when the cached path is set and its file exists, resolution changes neither the path nor any file |
| `LogStore.ResolveFresh` | XmlLogger.cs:97-118 | otherwise the configured path is cached; an existing file there is left untouched, and a missing one is created with no entries |
| `LogStore.ResolveIdempotent` | XmlLogger.cs:91-119 | resolving twice gives the same path and files as resolving once, even with a changed setting or clock |
| `LogStore.CachedPathWinsOverSetting` | XmlLogger.cs:94-98 | while the cached file exists, the `AL-LogName` setting and the clock have no effect on resolution |
| `LogStore.NewEntries` | XmlLogger.cs:73-82 | a batch yields one entry per message, the i-th carrying the i-th message and its own timestamp |
| `LogStore.NewEntriesSnoc` | XmlLogger.cs:73-82 | each turn of the loop appends the entry of the next message after those already built |
| `LogStore.AppendOne` | XmlLogger.cs:34-55 | after resolution, the current file's entries are the old ones plus one entry at the end, with the message and the timestamp; no other file changes |
| `LogStore.AppendBatch` | XmlLogger.cs:62-86 | after one resolution, the current file keeps its old entries as a prefix and grows by exactly one entry per message, in order; no other file changes |
| `LogStore.AppendEach` | XmlLogger.cs:34-55 | repeated `AddEntry` calls on a resolved log keep the same current file and create no file |
| `LogStore.AppendOneIgnoresEnvOnceResolved` | XmlLogger.cs:39 | once a file is current, an `AddEntry` writes to it whatever the setting and the clock say |
| `LogStore.BatchOfOne` | XmlLogger.cs:34-86 | `AddEntries` of a single message has the same effect as `AddEntry` of that message |
| `LogStore.EmptyBatch` | XmlLogger.cs:62-86 | `AddEntries` of no messages only resolves the log and leaves its entries unchanged |
| `LogStore.BatchIsRepeatedAppend` | XmlLogger.cs:62-86 | `AddEntries(messages)` leaves the same state as one resolution followed by one `AddEntry` per message, in order |
| `LogStore.RepeatedAppendCount` | XmlLogger.cs:34-55 | after n `AddEntry` calls the current file holds exactly n more entries, the messages in call order at its end, and no other file has changed |
| `LogStore.FirstEntryCreatesTempLog` | XmlLogger.cs:98-118 | with no files and no setting, the first `AddEntry` creates `<assembly path>TEMP-<yy><day>.xml` holding just that entry |
| `XmlLogging.XmlLogger.constructor` | XmlLogger.cs:25-28 | the static constructor resolves the current log with nothing cached, so afterwards a current log file exists |
| `XmlLogging.XmlLogger.GetCurrentLog` | XmlLogger.cs:91-119 | the new path and files are `Resolve` of the old ones, and the cached file exists |
| `XmlLogging.XmlLogger.AddEntry` | XmlLogger.cs:34-55 | the new path and files are `AppendOne` of the old ones |
| `XmlLogging.XmlLogger.AddExceptionEntry` | XmlLogger.cs:57-60 | logging an exception has exactly the effect of `AddEntry` of its message |
| `XmlLogging.XmlLogger.AddEntries` | XmlLogger.cs:62-86 | the loop builds the document in memory and saves it once; the new state is `AppendBatch` of the old one |

## Left out

- XML parsing and serialisation (`XmlDocument.Load`/`Save`, `XmlWriter`): a document is its list of entries, and the text of every entry is taken to survive `Load` and `Save` exactly (whitespace-only text, which `XmlDocument` may drop when it loads, is not modelled). A malformed existing file and its parse error are not modelled.
- File-system calls and their failures (permission, disk full, path too long): `File.Exists` and file creation are membership in and update of the `files` map. A failed write is not modelled.
- The `lock (Locker)` blocks: each public operation is one atomic step, and concurrent callers are not modelled.
- `DateTime.Now`, the `yyyy-MM-dd hh:mm:ss tt` format and `JulianCalendar.GetDayOfYear`: the year, the Julian-calendar day of the year that `GetDayOfYear` returns and the formatted timestamps are inputs. `AddEntries` reads the clock once per message, so it takes one timestamp per message.
- `Settings.AppSettings` and `Settings.AssemblyPath` are not part of this model; their values are input strings.
- `year` and `dayOfYear` are independent inputs, while the source reads both from one `DateTime`. The `yy` part is the year in the current culture's calendar, which is Gregorian for most cultures but not all (under a Thai Buddhist culture 2024 gives `67`). The day of the year is in the Julian calendar. So two different dates can give the same temporary name: under a Gregorian culture, 1 January 2024 and 31 December 2024 are both Julian day 353, so both give `TEMP-24353`. The lemmas about temporary names are about the two input values, not about dates.
- Paths are compared as exact strings, with no case folding and no normalisation, while `File.Exists` and `XmlWriter.Create` resolve paths through the operating system. On a case-insensitive file system two spellings name one file, and the model would keep them as two files. The results about resolution, creation and "no other file changes" are about path strings, not about files.
- `XmlLogging.XmlLogger.AddExceptionEntry`, `XmlLogging.XmlLogger.AddEntries`: Dafny values are never null, so null arguments are not modelled. In the source, a null exception fails at XmlLogger.cs:59 before anything changes. A null message list fails at the loop (XmlLogger.cs:73) after `GetCurrentLog` has run, so the log may have been created and its path cached, but no entry is written.
- `IsEmpty`/`IsNotEmpty` are not part of this model; they are taken to test for a null or empty string.
- `WindowsLogger.cs` (the operating-system event log wrapper) is not modelled.
- Overloading: C# `AddEntry(Exception)` is `AddExceptionEntry` here, because Dafny has no overloading.

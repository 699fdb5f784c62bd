/**
 * The XML logger's state as a value: the cached path of the current log and
 * the store of log files, each file a `Log` document holding its `log_entry`
 * elements in document order. The functions here say what one call of
 * GetCurrentLog, AddEntry and AddEntries does to that state; the lemmas
 * state what the logger promises across calls.
 */
module LogStore {
  import opened LogNaming

  /** One `log_entry` element: its `create_date` attribute and its text. */
  datatype Entry = Entry(createDate: string, text: string)

  /**
   * The files on disk, keyed by the exact full-path string; a file is the list
   * of entries under its `Log` root.
   */
  type FileStore = map<string, seq<Entry>>

  /** The logger's state: the cached current-log path ("" before the first resolution) and the files. */
  datatype Store = Store(currentLog: string, files: FileStore)

  /**
   * What one call reads from its surroundings: the `AL-LogName` setting, the
   * assembly directory, the clock's year in the current culture's calendar
   * (Gregorian for most cultures) and the Julian-calendar day of the year that
   * `GetDayOfYear` returns.
   */
  datatype Env = Env(logNameSetting: string, assemblyPath: string, year: nat, dayOfYear: nat)

  /** An exception, of which the logger only reads the message. */
  datatype Exception = Exception(message: string)

  /** The file that resolution picks when the cached one is unusable. */
  function ConfiguredPath(env: Env): (path: string)
    ensures env.logNameSetting != "" ==> path == env.assemblyPath + env.logNameSetting + ".xml"
    ensures env.logNameSetting == ""
        ==> path == env.assemblyPath + "TEMP-" + TwoDigitYear(env.year) + Decimal(env.dayOfYear) + ".xml"
  {
    LogPath(env.assemblyPath, LogName(env.logNameSetting, env.year, env.dayOfYear))
  }

  /** The cached path is set and its file exists. */
  predicate HasCurrent(s: Store): (b: bool)
    ensures s.currentLog == "" ==> !b
    ensures s.currentLog !in s.files ==> !b
    ensures s.currentLog != "" && s.currentLog in s.files ==> b
  {
    s.currentLog != "" && s.currentLog in s.files
  }

  /**
   * GetCurrentLog: keep the cached path if its file exists; otherwise compute
   * the configured path, create an empty `Log` document there if no file is
   * there, and cache that path.
   */
  function Resolve(s: Store, env: Env): (r: Store)
    ensures HasCurrent(r)
    ensures forall p :: p in s.files ==> p in r.files && r.files[p] == s.files[p]
    ensures r.files.Keys == s.files.Keys + {r.currentLog}
    ensures r.currentLog !in s.files ==> r.files[r.currentLog] == []
  {
    if HasCurrent(s) then s
    else
      var path := ConfiguredPath(env);
      Store(path, if path in s.files then s.files else s.files[path := []])
  }

  /** The entries a batch appends: one per message, stamped with the clock reading taken for it. */
  function NewEntries(stamps: seq<string>, msgs: seq<string>): (es: seq<Entry>)
    requires |stamps| == |msgs|
    ensures |es| == |msgs|
    ensures forall i :: 0 <= i < |msgs| ==> es[i] == Entry(stamps[i], msgs[i])
  {
    if msgs == [] then [] else [Entry(stamps[0], msgs[0])] + NewEntries(stamps[1..], msgs[1..])
  }

  /** Extending a batch by its next message appends that message's entry. */
  lemma NewEntriesSnoc(stamps: seq<string>, msgs: seq<string>, i: nat)
    requires |stamps| == |msgs| && i < |msgs|
    ensures NewEntries(stamps[..i + 1], msgs[..i + 1])
         == NewEntries(stamps[..i], msgs[..i]) + [Entry(stamps[i], msgs[i])]
  {
  }

  /** AddEntry(message): resolve, then append one entry at the end of the current file. */
  function AppendOne(s: Store, env: Env, stamp: string, msg: string): (r: Store)
    ensures r.currentLog == Resolve(s, env).currentLog && HasCurrent(r)
    ensures r.files.Keys == Resolve(s, env).files.Keys
    ensures r.files[r.currentLog] == Resolve(s, env).files[r.currentLog] + [Entry(stamp, msg)]
    ensures forall p :: p in r.files && p != r.currentLog ==> p in s.files && r.files[p] == s.files[p]
  {
    var t := Resolve(s, env);
    Store(t.currentLog, t.files[t.currentLog := t.files[t.currentLog] + [Entry(stamp, msg)]])
  }

  /**
   * AddEntries(messages): resolve once, then append one entry per message, in
   * order, at the end of the current file.
   */
  function AppendBatch(s: Store, env: Env, stamps: seq<string>, msgs: seq<string>): (r: Store)
    requires |stamps| == |msgs|
    ensures r.currentLog == Resolve(s, env).currentLog && HasCurrent(r)
    ensures r.files.Keys == Resolve(s, env).files.Keys
    ensures var before := Resolve(s, env).files[r.currentLog];
      && |r.files[r.currentLog]| == |before| + |msgs|
      && r.files[r.currentLog][..|before|] == before
      && forall i :: 0 <= i < |msgs| ==> r.files[r.currentLog][|before| + i] == Entry(stamps[i], msgs[i])
    ensures forall p :: p in r.files && p != r.currentLog ==> p in s.files && r.files[p] == s.files[p]
  {
    var t := Resolve(s, env);
    Store(t.currentLog, t.files[t.currentLog := t.files[t.currentLog] + NewEntries(stamps, msgs)])
  }

  /** The effect of calling AddEntry once per message, in order. */
  function AppendEach(s: Store, env: Env, stamps: seq<string>, msgs: seq<string>): (r: Store)
    requires |stamps| == |msgs|
    ensures HasCurrent(s) ==> r.currentLog == s.currentLog && r.files.Keys == s.files.Keys
    decreases |msgs|
  {
    if msgs == [] then s
    else AppendEach(AppendOne(s, env, stamps[0], msgs[0]), env, stamps[1..], msgs[1..])
  }

  /** A cached path whose file exists is kept, whatever the configuration and the clock say. */
  lemma ResolveKeepsCurrent(s: Store, env: Env)
    requires HasCurrent(s)
    ensures Resolve(s, env) == s
  {
  }

  /**
   * Without a usable cached path, resolution caches the configured path and
   * leaves an existing file there untouched, or creates it empty.
   */
  lemma ResolveFresh(s: Store, env: Env)
    requires !HasCurrent(s)
    ensures Resolve(s, env).currentLog == ConfiguredPath(env)
    ensures ConfiguredPath(env) in s.files ==> Resolve(s, env).files == s.files
    ensures ConfiguredPath(env) !in s.files ==> Resolve(s, env).files == s.files[ConfiguredPath(env) := []]
  {
  }

  /**
   * Resolving twice is resolving once, even when the configuration or the
   * clock changed in between: the second call finds the cached file.
   */
  lemma ResolveIdempotent(s: Store, env1: Env, env2: Env)
    ensures Resolve(Resolve(s, env1), env2) == Resolve(s, env1)
  {
  }

  /** A changed log-name setting is ignored while the cached file exists. */
  lemma CachedPathWinsOverSetting(s: Store, env1: Env, env2: Env)
    requires HasCurrent(s)
    ensures Resolve(s, env1) == Resolve(s, env2)
  {
  }

  /** Once a file is current, later appends go to the same file whatever the surroundings say. */
  lemma AppendOneIgnoresEnvOnceResolved(s: Store, env1: Env, env2: Env, stamp: string, msg: string)
    requires HasCurrent(s)
    ensures AppendOne(s, env1, stamp, msg) == AppendOne(s, env2, stamp, msg)
  {
  }

  /** A batch of one message has the same effect as AddEntry of that message. */
  lemma BatchOfOne(s: Store, env: Env, stamp: string, msg: string)
    ensures AppendBatch(s, env, [stamp], [msg]) == AppendOne(s, env, stamp, msg)
  {
    assert NewEntries([stamp], [msg]) == [Entry(stamp, msg)];
  }

  /** An empty batch only resolves the current log. */
  lemma EmptyBatch(s: Store, env: Env)
    ensures AppendBatch(s, env, [], []) == Resolve(s, env)
  {
    var t := Resolve(s, env);
    assert t.files[t.currentLog] + NewEntries([], []) == t.files[t.currentLog];
  }

  /**
   * AddEntries(messages) leaves the store as AddEntry called once per message
   * in order would, after one resolution: resolving once per batch loses or
   * reorders nothing.
   */
  lemma {:induction false} BatchIsRepeatedAppend(s: Store, env: Env, stamps: seq<string>, msgs: seq<string>)
    requires |stamps| == |msgs|
    ensures AppendBatch(s, env, stamps, msgs) == AppendEach(Resolve(s, env), env, stamps, msgs)
    decreases |msgs|
  {
    var t := Resolve(s, env);
    var cur, before := t.currentLog, t.files[t.currentLog];
    if msgs == [] {
      assert before + NewEntries(stamps, msgs) == before;
      assert t.files[cur := before] == t.files;
    } else {
      var e := Entry(stamps[0], msgs[0]);
      var rest := NewEntries(stamps[1..], msgs[1..]);
      var u := AppendOne(t, env, stamps[0], msgs[0]);
      assert u == Store(cur, t.files[cur := before + [e]]);
      BatchIsRepeatedAppend(u, env, stamps[1..], msgs[1..]);
      assert Resolve(u, env) == u;
      assert NewEntries(stamps, msgs) == [e] + rest;
      assert before + NewEntries(stamps, msgs) == before + [e] + rest;
      assert u.files[cur := before + [e] + rest] == t.files[cur := before + NewEntries(stamps, msgs)];
    }
  }

  /**
   * After n calls of AddEntry the current file holds exactly n more entries,
   * the messages in call order at its end, and no other file has changed.
   */
  lemma RepeatedAppendCount(s: Store, env: Env, stamps: seq<string>, msgs: seq<string>)
    requires |stamps| == |msgs|
    ensures var t := Resolve(s, env);
      var r := AppendEach(t, env, stamps, msgs);
      var before := t.files[t.currentLog];
      && r.currentLog == t.currentLog
      && |r.files[r.currentLog]| == |before| + |msgs|
      && r.files[r.currentLog][..|before|] == before
      && (forall i :: 0 <= i < |msgs| ==> r.files[r.currentLog][|before| + i] == Entry(stamps[i], msgs[i]))
      && (forall p :: p in r.files && p != r.currentLog ==> p in s.files && r.files[p] == s.files[p])
  {
    BatchIsRepeatedAppend(s, env, stamps, msgs);
  }

  /**
   * With no file and no log-name setting, the first AddEntry creates the
   * temporary log of the day holding that one entry.
   */
  lemma FirstEntryCreatesTempLog(env: Env, stamp: string, msg: string)
    requires env.logNameSetting == ""
    ensures var path := env.assemblyPath + "TEMP-" + TwoDigitYear(env.year) + Decimal(env.dayOfYear) + ".xml";
      AppendOne(Store("", map[]), env, stamp, msg) == Store(path, map[path := [Entry(stamp, msg)]])
  {
    var path := ConfiguredPath(env);
    assert path == env.assemblyPath + "TEMP-" + TwoDigitYear(env.year) + Decimal(env.dayOfYear) + ".xml";
    var empty: FileStore := map[];
    assert [] + [Entry(stamp, msg)] == [Entry(stamp, msg)];
    assert empty[path := []][path := [] + [Entry(stamp, msg)]] == map[path := [Entry(stamp, msg)]];
  }
}

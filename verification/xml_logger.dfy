/**
 * The XML logger itself: the cached current-log path and the files it writes,
 * updated in place by its operations. Each operation is one atomic step (the
 * logger serialises its callers with a lock) and is proved to leave the
 * state the functions of LogStore describe.
 */
module XmlLogging {
  import opened LogStore

  class XmlLogger {
    /** The cached path of the current log; "" while none is cached. */
    var currentLog: string
    /** The log files on disk, by full path. */
    var files: FileStore

    /** The logger's state as a value. */
    function State(): Store
      reads this
    {
      Store(currentLog, files)
    }

    /** Loading the logger resolves the current log once, starting with nothing cached. */
    constructor (disk: FileStore, env: Env)
      ensures State() == Resolve(Store("", disk), env)
      ensures HasCurrent(State())
    {
      currentLog := "";
      files := disk;
      new;
      GetCurrentLog(env);
    }

    /**
     * Keeps the cached path when its file exists; otherwise caches the
     * configured path, creating an empty `Log` document there when no file is
     * there.
     */
    method GetCurrentLog(env: Env)
      modifies this
      ensures State() == Resolve(old(State()), env)
      ensures HasCurrent(State())
    {
      if currentLog != "" && currentLog in files {
        return;
      }
      var logName := env.logNameSetting;
      if logName == "" {
        logName := LogNaming.TempLogName(env.year, env.dayOfYear);
      }
      var logFile := env.assemblyPath + logName + LogNaming.EXTENSION;
      if logFile !in files {
        files := files[logFile := []];
      }
      currentLog := logFile;
    }

    /** Appends one entry with the given message and timestamp at the end of the current log. */
    method AddEntry(message: string, env: Env, stamp: string)
      modifies this
      ensures State() == AppendOne(old(State()), env, stamp, message)
    {
      GetCurrentLog(env);
      var doc := files[currentLog];
      doc := doc + [Entry(stamp, message)];
      files := files[currentLog := doc];
    }

    /** Logs an exception as the entry of its message. */
    method AddExceptionEntry(ex: Exception, env: Env, stamp: string)
      modifies this
      ensures State() == AppendOne(old(State()), env, stamp, ex.message)
    {
      AddEntry(ex.message, env, stamp);
    }

    /**
     * Resolves the current log once, loads it, appends one entry per message
     * in order, each stamped with its own clock reading, and saves it once.
     */
    method AddEntries(messages: seq<string>, env: Env, stamps: seq<string>)
      requires |stamps| == |messages|
      modifies this
      ensures State() == AppendBatch(old(State()), env, stamps, messages)
    {
      GetCurrentLog(env);
      ghost var resolved := State();
      var doc := files[currentLog];
      ghost var before := doc;
      var i := 0;
      while i < |messages|
        invariant 0 <= i <= |messages|
        invariant State() == resolved
        invariant doc == before + NewEntries(stamps[..i], messages[..i])
      {
        NewEntriesSnoc(stamps, messages, i);
        doc := doc + [Entry(stamps[i], messages[i])];
        i := i + 1;
      }
      assert stamps[..i] == stamps && messages[..i] == messages;
      files := files[currentLog := doc];
      assert resolved == Resolve(old(State()), env);
    }
  }
}

/**
 * File-based component-state coordination of python/dldbase/componentstate.py.
 *
 * A component's state lives in a directory of the shared filesystem,
 * modelled by ComponentDir: whether the directory exists, and the text of
 * each file in it by name. Four names matter:
 *   state.current  the committed state, on its first line;
 *   state.next     present while a write is in flight;
 *   state.read     present while a read is in flight;
 *   state.log      the journal, one entry appended per committed write.
 * LockFile is the scoped marker file, and ComponentStateReaderWriter runs the
 * read and write protocols as bounded loops of attempts.
 */
module ComponentState {
  import opened Wrappers
  import opened PyStr

  /** The files of a state directory, STATE_CURRENT, STATE_NEXT, STATE_READ and STATE_LOG. */
  datatype FileName = StateCurrent | StateNext | StateRead | StateLog {
    function Text(): (t: string)
      ensures |t| > 6 && t[..6] == "state."
    {
      match this
      case StateCurrent => "state.current"
      case StateNext => "state.next"
      case StateRead => "state.read"
      case StateLog => "state.log"
    }
  }

  /** DLD_NAME_SUFFIX */
  const NameSuffix := "_DLD_NAME"
  /** DLD_STATE_DIR, the root under which every component has its directory */
  const StateRoot := "/dld-component-states"
  /** Stands in the journal for "no prior state" */
  const NoState := "[[NA]]]"
  /** Both retry loops run `for retry in range(0,41)` */
  const Attempts := 41

  /** The exceptions the core raises, by kind, with the data their messages carry. */
  datatype Error =
    | MissingStateDir(dir: string)                       // "missing component state dir: ..."
    | LockFileExists(path: FileName)                       // "requested lock file already exists: ..."
    | FileNotFound(path: FileName)                         // OSError with errno ENOENT
    | ConcurrentModification                             // "concurrent state modification"
    | ReadTimeout(retries: nat, component: string)       // "timeout after n retries to read state ..."
    | WriteTimeout(retries: nat, component: string)      // "timeout after n retries to write state ..."

  type Outcome<T> = Result<T, Error>

  /** What one attempt gives its retry loop: the `_RETRY_NEEDED` marker, a value, or an exception. */
  datatype Attempt<T> = Retry | Done(value: T) | Fail(error: Error)

  /** `osp.join(dir, name)` for two parts on POSIX. */
  function JoinPath(dir: string, name: string): (p: string)
    ensures EndsWith(p, name)
    ensures name != [] && name[0] == '/' ==> p == name
    ensures (name == [] || name[0] != '/') ==> |dir| <= |p| && p[..|dir|] == dir
  {
    if name != [] && name[0] == '/' then name
    else if dir == [] || dir[|dir| - 1] == '/' then dir + name
    else dir + "/" + name
  }

  /** The text LockFile writes into a file it creates: the stripped content and a newline, if the content is truthy. */
  function LockText(content: Option<string>): (text: string)
    ensures text != [] <==> content.Some? && content.value != []
    ensures text != [] ==> text == Strip(content.value) + "\n"
  {
    if content.Some? && content.value != [] then Strip(content.value) + "\n" else ""
  }

  /** What `fd.readline().strip()` gives for a file holding `text`. */
  function ReadState(text: string): (state: string)
    ensures IsStripOf(state, FirstLine(text))
    ensures NoLineBreak(state) && Stripped(state)
  {
    var line := FirstLine(text);
    StripMeetsReference(line);
    StripKeepsNoLineBreak(line);
    Strip(line)
  }

  /** `_read_current_state`: the stripped first line of state.current, or None when that file cannot be opened. */
  function ReadCurrentState(files: map<FileName, string>): (r: Option<string>)
    ensures r.Some? <==> StateCurrent in files
    ensures r.Some? ==> IsStripOf(r.value, FirstLine(files[StateCurrent]))
    ensures r.Some? ==> NoLineBreak(r.value) && Stripped(r.value)
  {
    if StateCurrent in files then Some(ReadState(files[StateCurrent])) else None
  }

  /** No two file names share their text. */
  lemma TextInjective()
    ensures forall f: FileName, g: FileName :: f.Text() == g.Text() ==> f == g
  {
    forall f: FileName, g: FileName | f.Text() == g.Text()
      ensures f == g
    {
      assert f.Text()[6] == g.Text()[6];
    }
  }

  /** `os.listdir(self.state_dir)`: the names of the files in the directory. */
  function ListDir(files: map<FileName, string>): (names: set<string>)
    ensures forall f {:trigger f.Text() in names} :: f in files <==> f.Text() in names
  {
    TextInjective();
    set f | f in files :: f.Text()
  }

  /** The listing names every file once: there are as many names as files. */
  lemma ListDirCount(files: map<FileName, string>)
    ensures |ListDir(files)| == |files|
  {
    TextInjective();
    TextsCount(files.Keys);
  }

  /** Distinct files have distinct names, so there are as many names as files. */
  lemma {:induction false} TextsCount(keys: set<FileName>)
    requires forall f: FileName, g: FileName :: f.Text() == g.Text() ==> f == g
    ensures |set f | f in keys :: f.Text()| == |keys|
    decreases |keys|
  {
    if keys != {} {
      var k :| k in keys;
      var rest := keys - {k};
      TextsCount(rest);
      assert (set f | f in keys :: f.Text()) == (set f | f in rest :: f.Text()) + {k.Text()};
      assert k.Text() !in (set f | f in rest :: f.Text());
    }
  }

  /** `_new_state_pending`: state.next is among the listed names. */
  function NewStatePending(files: map<FileName, string>): (pending: bool)
    ensures pending <==> StateNext in files
  {
    StateNext.Text() in ListDir(files)
  }

  /** `_state_reading`: state.read is among the listed names. */
  function StateReading(files: map<FileName, string>): (reading: bool)
    ensures reading <==> StateRead in files
  {
    StateRead.Text() in ListDir(files)
  }

  /** A writer finds the directory busy while a read or another write is in flight. */
  function Busy(files: map<FileName, string>): (busy: bool)
    ensures busy <==> StateRead in files || StateNext in files
  {
    StateReading(files) || NewStatePending(files)
  }

  /** `self._read_current_state() or '[[NA]]]'`: an absent or empty state both become the sentinel. */
  function Prior(files: map<FileName, string>): (prev: string)
    ensures prev != []
    ensures ReadCurrentState(files) == Some(prev) || prev == NoState
    ensures ReadCurrentState(files).Some? && ReadCurrentState(files).value != [] ==> prev == ReadCurrentState(files).value
  {
    var current := ReadCurrentState(files);
    if current.Some? && current.value != [] then current.value else NoState
  }

  /** The optimistic check: a supplied old state that, stripped, differs from the prior state. */
  function Conflicts(oldState: Option<string>, files: map<FileName, string>): (conflict: bool)
    ensures oldState.None? ==> !conflict
    ensures oldState.Some? && ReadCurrentState(files).Some? && ReadCurrentState(files).value != [] ==>
      (conflict <==> Strip(oldState.value) != ReadCurrentState(files).value)
    ensures oldState.Some? && (ReadCurrentState(files).None? || ReadCurrentState(files).value == []) ==>
      (conflict <==> Strip(oldState.value) != NoState)
  {
    oldState.Some? && Strip(oldState.value) != Prior(files)
  }

  /** The text of the journal, empty while the file does not exist. */
  function LogText(files: map<FileName, string>): string {
    if StateLog in files then files[StateLog] else ""
  }

  /** One journal entry, `"{t} {prev} -> {new}"`, with no line break after it. */
  function JournalEntry(now: string, prev: string, newState: string): (entry: string)
    ensures EndsWith(entry, " -> " + newState)
  {
    now + " " + prev + " -> " + newState
  }

  /**
   * The directory after a committed write from `files`: state.next renamed
   * onto state.current and one entry appended to the journal.
   */
  function Committed(files: map<FileName, string>, now: string, newState: string): (after: map<FileName, string>)
    requires !NewStatePending(files)
    ensures !NewStatePending(after) && StateCurrent in after
    ensures LogText(after) == LogText(files) + JournalEntry(now, Prior(files), newState)
  {
    files[StateCurrent := LockText(Some(newState))]
         [StateLog := LogText(files) + JournalEntry(now, Prior(files), newState)]
  }

  /**
   * Creating `next`, creating `log` if it is missing, renaming `next` onto
   * `current` and appending to `log` leaves `current` holding `next`'s text
   * and `log` extended, all else as before.
   */
  lemma RenameSteps<K>(files: map<K, string>, next: K, current: K, log: K, text: string, entry: string)
    requires next != current && next != log && current != log && next !in files
    ensures
      var created := files[next := text];
      var withLog := if log in created then created else created[log := ""];
      var renamed := (withLog - {next})[current := withLog[next]];
      renamed[log := renamed[log] + entry]
        == files[current := text][log := (if log in files then files[log] else "") + entry]
  {
    var created := files[next := text];
    var withLog := if log in created then created else created[log := ""];
    var logText := if log in files then files[log] else "";
    assert withLog == files[log := logText][next := text];
    var renamed := (withLog - {next})[current := withLog[next]];
    assert renamed.Keys == files.Keys + {current, log};
    assert renamed == files[log := logText][current := text];
  }

  /** Number of sleeps before the first `n` attempts: one before each retry 1, 5, 9, ... */
  function Naps(n: nat): nat {
    if n <= 1 then 0 else (n - 2) / 4 + 1
  }

  /** The retries among the first `n` attempts that sleep first: `retry > 0 and retry % 4 == 1`. */
  ghost function SleepingRetries(n: nat): set<nat> {
    set retry: nat | 0 < retry < n && retry % 4 == 1
  }

  /** Naps counts exactly the retries that sleep. */
  lemma {:induction false} NapsCountsSleeps(n: nat)
    ensures Naps(n) == |SleepingRetries(n)|
  {
    if n > 0 {
      NapsCountsSleeps(n - 1);
      if n - 1 > 0 && (n - 1) % 4 == 1 {
        assert SleepingRetries(n) == SleepingRetries(n - 1) + {n - 1};
      } else {
        assert SleepingRetries(n) == SleepingRetries(n - 1);
      }
    }
  }

  /** `ComponentStateReaderWriter.known_components`: the values of the environment entries whose key ends with `_DLD_NAME`. */
  function KnownComponents(env: map<string, string>): (names: set<string>)
    ensures forall name :: name in names <==> exists key :: key in env && EndsWith(key, NameSuffix) && env[key] == name
  {
    set key | key in env && EndsWith(key, NameSuffix) :: env[key]
  }

  /** A stripped line followed by a newline reads back as that line. */
  lemma ReadStrippedLine(line: string)
    requires NoLineBreak(line) && Stripped(line)
    ensures ReadState(line + "\n") == line
  {
    FirstLineOfTerminated(line, "\n");
    StripOfStripped(line);
  }

  /** A single-line state written through LockFile reads back, stripped, from the file's first line. */
  lemma ReadBackLockText(s: string)
    requires NoLineBreak(Strip(s))
    ensures ReadState(LockText(Some(s))) == Strip(s)
  {
    if s != [] {
      var line := Strip(s);
      assert LockText(Some(s)) == line + "\n";
      FirstLineOfTerminated(line, "\n");
      StripIdempotent(s);
    }
  }

  /**
   * A committed write changes state.current and state.log and nothing else,
   * leaves no state.next, appends exactly one journal entry, and a later
   * read returns the stripped new state when that is one line.
   */
  lemma CommitEffects(files: map<FileName, string>, now: string, newState: string)
    requires !NewStatePending(files)
    ensures var after := Committed(files, now, newState);
      && !NewStatePending(after)
      && StateCurrent in after && StateLog in after
      && (forall name :: name != StateCurrent && name != StateLog ==>
            (name in after <==> name in files) && (name in files ==> after[name] == files[name]))
      && LogText(after) == LogText(files) + JournalEntry(now, Prior(files), newState)
      && (NoLineBreak(Strip(newState)) ==> ReadCurrentState(after) == Some(Strip(newState)))
  {
    if NoLineBreak(Strip(newState)) {
      ReadBackLockText(newState);
    }
  }

  /**
   * After a write of a non-blank single-line state, a later write passes the
   * optimistic check exactly when its old state strips to the state written.
   */
  lemma ConflictsAfterCommit(files: map<FileName, string>, now: string, newState: string, oldState: string)
    requires StateNext !in files
    requires Strip(newState) != [] && NoLineBreak(Strip(newState))
    ensures Conflicts(Some(oldState), Committed(files, now, newState)) <==> Strip(oldState) != Strip(newState)
  {
    CommitEffects(files, now, newState);
  }

  /** An old state that strips to nothing never passes the optimistic check: the prior state is never empty. */
  lemma BlankOldStateConflicts(files: map<FileName, string>, oldState: string)
    requires Strip(oldState) == []
    ensures Conflicts(Some(oldState), files)
  {
  }

  /**
   * The sentinel is ambiguous: a component without state.current and one
   * whose state.current reads "[[NA]]]" have the same prior state, and an
   * old state of "[[NA]]]" passes the optimistic check on both.
   */
  lemma SentinelIsAmbiguous(files: map<FileName, string>)
    requires StateCurrent !in files || ReadState(files[StateCurrent]) == NoState
    ensures Prior(files) == NoState
    ensures !Conflicts(Some(NoState), files)
  {
    StripOfStripped(NoState);
  }

  /** A journal entry built from single-line parts is one line. */
  lemma JournalEntryIsOneLine(now: string, prev: string, newState: string)
    requires NoLineBreak(now) && NoLineBreak(prev) && NoLineBreak(newState)
    ensures NoLineBreak(JournalEntry(now, prev, newState))
  {
  }

  /**
   * Entries carry no line break, so two commits leave their entries
   * back to back in the journal, the second starting where the first ends.
   */
  lemma JournalOfTwoCommits(files: map<FileName, string>, t1: string, s1: string, t2: string, s2: string)
    requires !NewStatePending(files)
    ensures !NewStatePending(Committed(files, t1, s1))
    ensures LogText(Committed(Committed(files, t1, s1), t2, s2))
      == LogText(files) + JournalEntry(t1, Prior(files), s1) + JournalEntry(t2, Prior(Committed(files, t1, s1)), s2)
  {
    CommitEffects(files, t1, s1);
    CommitEffects(Committed(files, t1, s1), t2, s2);
  }

  /** The set of names is no larger than the environment. */
  lemma {:induction false} KnownComponentsBound(env: map<string, string>)
    ensures |KnownComponents(env)| <= |env|
    decreases |env|
  {
    if env != map[] {
      var key :| key in env;
      var rest := env - {key};
      assert rest.Keys == env.Keys - {key};
      KnownComponentsBound(rest);
      assert KnownComponents(env) <= KnownComponents(rest) + {env[key]};
      SubsetCardinality(KnownComponents(env), KnownComponents(rest) + {env[key]});
    }
  }

  /**
   * Deduplication: however many suffixed entries name the same component,
   * it is known once.
   */
  lemma KnownComponentsShareName(env: map<string, string>, key: string)
    requires key in env && EndsWith(key, NameSuffix)
    requires forall k :: k in env && EndsWith(k, NameSuffix) ==> env[k] == env[key]
    ensures KnownComponents(env) == {env[key]}
    ensures |KnownComponents(env)| == 1
  {
  }

  lemma {:induction false} SubsetCardinality<T>(a: set<T>, b: set<T>)
    requires a <= b
    ensures |a| <= |b|
  {
    assert b == a + (b - a);
  }

  /** Setting one environment entry adds its value when its key carries the suffix, and otherwise nothing. */
  lemma KnownComponentsUpdate(env: map<string, string>, key: string, value: string)
    ensures KnownComponents(env[key := value])
      == KnownComponents(env - {key}) + (if EndsWith(key, NameSuffix) then {value} else {})
  {
    var updated := env[key := value];
    var rest := env - {key};
    forall name | name in KnownComponents(rest)
      ensures name in KnownComponents(updated)
    {
      var k :| k in rest && EndsWith(k, NameSuffix) && rest[k] == name;
      assert k in updated && updated[k] == name;
    }
    if EndsWith(key, NameSuffix) {
      assert updated[key] == value;
    }
  }

  /** The component's state directory, as the filesystem holds it. */
  class ComponentDir {
    var isDir: bool
    var files: map<FileName, string>

    /** A directory that does not exist holds no files. */
    ghost predicate Valid()
      reads this
    {
      isDir || files == map[]
    }

    constructor (isDir: bool, files: map<FileName, string>)
      requires isDir || files == map[]
      ensures Valid() && this.isDir == isDir && this.files == files
    {
      this.isDir := isDir;
      this.files := files;
    }
  }

  /** A marker file whose presence lasts for the scope of one `with` block. */
  class LockFile {
    const path: FileName
    const content: Option<string>
    const ignoreExists: bool
    const ignoreRemoved: bool

    constructor (path: FileName, content: Option<string>, ignoreExists: bool, ignoreRemoved: bool)
      ensures this.path == path && this.content == content
      ensures this.ignoreExists == ignoreExists && this.ignoreRemoved == ignoreRemoved
    {
      this.path := path;
      this.content := content;
      this.ignoreExists := ignoreExists;
      this.ignoreRemoved := ignoreRemoved;
    }

    /** `__enter__`: take the marker, creating the file unless it is there already. */
    method Enter(dir: ComponentDir) returns (r: Outcome<FileName>)
      requires dir.Valid()
      modifies dir
      ensures dir.Valid() && dir.isDir == old(dir.isDir)
      ensures path in old(dir.files) ==>
        dir.files == old(dir.files) &&
        r == if ignoreExists then Ok(path) else Err(LockFileExists(path))
      ensures path !in old(dir.files) && !dir.isDir ==>
        dir.files == old(dir.files) == map[] && r == Err(FileNotFound(path))
      ensures path !in old(dir.files) && dir.isDir ==>
        dir.files == old(dir.files)[path := LockText(content)] && r == Ok(path)
    {
      if path in dir.files {
        if ignoreExists {
          return Ok(path);
        } else {
          return Err(LockFileExists(path));
        }
      }
      if !dir.isDir {
        // open(path, 'w') in a directory that does not exist
        return Err(FileNotFound(path));
      }
      dir.files := dir.files[path := LockText(content)];
      r := Ok(path);
    }

    /** `__exit__`: remove the file, whoever created it; a file already gone is an error unless tolerated. */
    method Exit(dir: ComponentDir) returns (r: Outcome<()>)
      requires dir.Valid()
      modifies dir
      ensures dir.Valid() && dir.isDir == old(dir.isDir)
      ensures dir.files == old(dir.files) - {path}
      ensures r.Ok? <==> path in old(dir.files) || ignoreRemoved
      ensures r.Err? ==> r.error == FileNotFound(path)
    {
      if path in dir.files {
        dir.files := dir.files - {path};
        r := Ok(());
      } else if ignoreRemoved {
        r := Ok(());
      } else {
        r := Err(FileNotFound(path));
      }
    }
  }

  /** Reads and writes the state of one component through its state directory. */
  class ComponentStateReaderWriter {
    const componentName: string
    const stateDir: string
    const dir: ComponentDir

    constructor (componentName: string, dir: ComponentDir)
      ensures this.componentName == componentName && this.dir == dir
      ensures this.stateDir == JoinPath(StateRoot, componentName)
    {
      this.componentName := componentName;
      this.stateDir := JoinPath(StateRoot, componentName);
      this.dir := dir;
    }

    /** `_ensure_state_dir`: a missing directory is an error, never created. */
    function EnsureStateDir(): (r: Outcome<()>)
      reads dir
      ensures r.Ok? <==> dir.isDir
      ensures r.Err? ==> r.error == MissingStateDir(stateDir)
    {
      if dir.isDir then Ok(()) else Err(MissingStateDir(stateDir))
    }

    /**
     * One attempt of `get_state`. `interleaved` is the content of a
     * state.next that another process creates while this attempt takes
     * state.read, between its two checks for state.next; None when no
     * writer interleaves.
     */
    method ReadAttempt(interleaved: Option<string>) returns (r: Attempt<Option<string>>)
      requires dir.Valid()
      modifies dir
      ensures dir.Valid() && dir.isDir == old(dir.isDir)
      ensures !old(dir.isDir) ==> r == Fail(MissingStateDir(stateDir)) && dir.files == old(dir.files) == map[]
      ensures old(dir.isDir) && NewStatePending(old(dir.files)) ==> r == Retry && dir.files == old(dir.files)
      ensures old(dir.isDir) && !NewStatePending(old(dir.files)) ==>
        !StateReading(dir.files) &&
        match interleaved
        case None => r == Done(ReadCurrentState(old(dir.files))) && dir.files == old(dir.files) - {StateRead}
        case Some(text) => r == Retry && dir.files == (old(dir.files) - {StateRead})[StateNext := text]
    {
      var ok := EnsureStateDir();
      if ok.Err? {
        return Fail(ok.error);
      }
      if NewStatePending(dir.files) {
        return Retry;
      }
      var lock := new LockFile(StateRead, None, true, true);
      var _ := lock.Enter(dir);
      assert StateCurrent in dir.files <==> StateCurrent in old(dir.files);
      assert StateCurrent in dir.files ==> dir.files[StateCurrent] == old(dir.files)[StateCurrent];
      if interleaved.Some? {
        dir.files := dir.files[StateNext := interleaved.value];
      }
      if NewStatePending(dir.files) {
        r := Retry;
      } else {
        r := Done(ReadCurrentState(dir.files));
      }
      var _ := lock.Exit(dir);
    }

    /**
     * `get_state`: up to 41 attempts, returning the first result that is
     * not a retry. The loop runs without other processes, so the directory
     * does not change between attempts. `attempts` counts the attempts
     * made and `naps` the 10 ms sleeps between them.
     */
    method GetState() returns (r: Outcome<Option<string>>, ghost attempts: nat, ghost naps: nat)
      requires dir.Valid()
      modifies dir
      ensures dir.Valid() && dir.isDir == old(dir.isDir)
      ensures 1 <= attempts <= Attempts && naps == Naps(attempts)
      ensures !old(dir.isDir) ==>
        r == Err(MissingStateDir(stateDir)) && attempts == 1 && dir.files == old(dir.files) == map[]
      ensures old(dir.isDir) && NewStatePending(old(dir.files)) ==>
        r == Err(ReadTimeout(Attempts - 1, componentName)) && attempts == Attempts && naps == 10 &&
        dir.files == old(dir.files)
      ensures old(dir.isDir) && !NewStatePending(old(dir.files)) ==>
        r == Ok(ReadCurrentState(old(dir.files))) && attempts == 1 && dir.files == old(dir.files) - {StateRead}
    {
      attempts, naps := 0, 0;
      var retry := 0;
      while retry < Attempts
        invariant 0 <= retry <= Attempts && attempts == retry && naps == Naps(retry)
        invariant dir.Valid() && dir.isDir == old(dir.isDir) && dir.files == old(dir.files)
        invariant retry > 0 ==> old(dir.isDir) && NewStatePending(old(dir.files))
      {
        if retry > 0 && retry % 4 == 1 {
          // the debug trace and time.sleep(0.01)
          naps := naps + 1;
        }
        var result := ReadAttempt(None);
        attempts := attempts + 1;
        match result
        case Done(state) => return Ok(state), attempts, naps;
        case Fail(e) => return Err(e), attempts, naps;
        case Retry =>
        retry := retry + 1;
      }
      // the loop variable keeps its last value, 40, for the message
      r := Err(ReadTimeout(Attempts - 1, componentName));
    }

    /**
     * The `with LockFile(next_path, ...)` block of an `update_state`
     * attempt: create state.next exclusively, rename it onto state.current
     * and append the journal entry that records `prev` as the prior state.
     */
    method Commit(now: string, newState: string, prev: string) returns (r: Attempt<()>)
      requires dir.Valid() && dir.isDir
      modifies dir
      ensures dir.Valid() && dir.isDir
      ensures NewStatePending(old(dir.files)) ==> r == Fail(LockFileExists(StateNext)) && dir.files == old(dir.files)
      ensures !NewStatePending(old(dir.files)) ==>
        r == Done(()) &&
        dir.files == old(dir.files)[StateCurrent := LockText(Some(newState))]
                                   [StateLog := LogText(old(dir.files)) + JournalEntry(now, prev, newState)]
    {
      ghost var before := dir.files;
      ghost var text, entry := LockText(Some(newState)), JournalEntry(now, prev, newState);
      var lock := new LockFile(StateNext, Some(newState), false, true);
      var entered := lock.Enter(dir);
      if entered.Err? {
        return Fail(entered.error);
      }
      // open(log_path, 'a') creates the journal if it is missing
      if StateLog !in dir.files {
        dir.files := dir.files[StateLog := ""];
      }
      // the commit point: os.rename(next_path, current_path)
      dir.files := (dir.files - {StateNext})[StateCurrent := dir.files[StateNext]];
      dir.files := dir.files[StateLog := dir.files[StateLog] + JournalEntry(now, prev, newState)];
      RenameSteps(before, StateNext, StateCurrent, StateLog, text, entry);
      var _ := lock.Exit(dir);
      r := Done(());
    }

    /**
     * One attempt of `update_state`. `interleaved` is the content of a
     * state.next that another writer creates after this attempt found the
     * directory idle and before it creates state.next itself; None when no
     * writer interleaves.
     */
    method WriteAttempt(now: string, newState: string, oldState: Option<string>, interleaved: Option<string>)
      returns (r: Attempt<()>)
      requires dir.Valid()
      modifies dir
      ensures dir.Valid() && dir.isDir == old(dir.isDir)
      ensures !old(dir.isDir) ==> r == Fail(MissingStateDir(stateDir)) && dir.files == old(dir.files) == map[]
      ensures old(dir.isDir) && Busy(old(dir.files)) ==> r == Retry && dir.files == old(dir.files)
      ensures old(dir.isDir) && !Busy(old(dir.files)) && Conflicts(oldState, old(dir.files)) ==>
        r == Fail(ConcurrentModification) && dir.files == old(dir.files)
      ensures old(dir.isDir) && !Busy(old(dir.files)) && !Conflicts(oldState, old(dir.files)) ==>
        match interleaved
        case None => r == Done(()) && dir.files == Committed(old(dir.files), now, newState)
        case Some(text) => r == Fail(LockFileExists(StateNext)) && dir.files == old(dir.files)[StateNext := text]
    {
      var ok := EnsureStateDir();
      if ok.Err? {
        return Fail(ok.error);
      }
      var currentState := Prior(dir.files);
      if StateReading(dir.files) || NewStatePending(dir.files) {
        return Retry;
      } else if oldState.Some? {
        if currentState != Strip(oldState.value) {
          return Fail(ConcurrentModification);
        }
      }
      if interleaved.Some? {
        dir.files := dir.files[StateNext := interleaved.value];
      }
      r := Commit(now, newState, currentState);
    }

    /**
     * `update_state`: up to 41 attempts while the directory is busy; a
     * missing directory and a conflict end the loop at once. `now` is the
     * wall-clock time the journal entry records.
     */
    method UpdateState(now: string, newState: string, oldState: Option<string>)
      returns (r: Outcome<()>, ghost attempts: nat, ghost naps: nat)
      requires dir.Valid()
      modifies dir
      ensures dir.Valid() && dir.isDir == old(dir.isDir)
      ensures 1 <= attempts <= Attempts && naps == Naps(attempts)
      ensures !old(dir.isDir) ==>
        r == Err(MissingStateDir(stateDir)) && attempts == 1 && dir.files == old(dir.files) == map[]
      ensures old(dir.isDir) && Busy(old(dir.files)) ==>
        r == Err(WriteTimeout(Attempts - 1, componentName)) && attempts == Attempts && naps == 10 &&
        dir.files == old(dir.files)
      ensures old(dir.isDir) && !Busy(old(dir.files)) && Conflicts(oldState, old(dir.files)) ==>
        r == Err(ConcurrentModification) && attempts == 1 && dir.files == old(dir.files)
      ensures old(dir.isDir) && !Busy(old(dir.files)) && !Conflicts(oldState, old(dir.files)) ==>
        r == Ok(()) && attempts == 1 && dir.files == Committed(old(dir.files), now, newState)
    {
      attempts, naps := 0, 0;
      var retry := 0;
      while retry < Attempts
        invariant 0 <= retry <= Attempts && attempts == retry && naps == Naps(retry)
        invariant dir.Valid() && dir.isDir == old(dir.isDir) && dir.files == old(dir.files)
        invariant retry > 0 ==> old(dir.isDir) && Busy(old(dir.files))
      {
        if retry > 0 && retry % 4 == 1 {
          // the debug trace and time.sleep(0.01)
          naps := naps + 1;
        }
        var result := WriteAttempt(now, newState, oldState, None);
        attempts := attempts + 1;
        match result
        case Done(_) => return Ok(()), attempts, naps;
        case Fail(e) => return Err(e), attempts, naps;
        case Retry =>
        retry := retry + 1;
      }
      r := Err(WriteTimeout(Attempts - 1, componentName));
    }
  }
}

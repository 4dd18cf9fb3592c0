# Component-state reader/writer, modelled in Dafny

This project models the file-based component-state coordination of
`python/dldbase/componentstate.py`. Several processes share one directory per
component and coordinate through it: they read the component's current state
and move it to a new one, using only marker files. The model has three
modules:

- `PyStr` (`pystr.dfy`) holds the parts of Python's `str` that the code
  relies on. `Strip` is `str.strip()`, over Python's full whitespace set.
  It is proved to meet a reference definition (`IsStripOf`), which has
  exactly one solution. `FirstLine` is the line `readline()` returns in text
  mode, without its line break; universal newlines make `\r` end a line too.
  `EndsWith` is `str.endswith`.
- `ComponentState` (`componentstate.dfy`) holds the rest:
  - `ComponentDir` is the component's directory on the filesystem. It holds
    the flag `isDir` and the text of each file by name. The names are
    `state.current`, `state.next`, `state.read` and `state.log`, modelled as
    the datatype `FileName`.
  - `LockFile` is the scoped marker file. `Enter` is `__enter__` and `Exit`
    is `__exit__`. Both change the directory.
  - `ComponentStateReaderWriter` runs the read and write protocols. An
    attempt method returns `Retry`, `Done(value)` or `Fail(error)`. A counted
    `while` loop repeats it up to 41 times.
  - Pure functions describe what the directory means. `ReadCurrentState` is
    `_read_current_state`. `Prior` is the current state or the sentinel
    `[[NA]]]`. `Committed` is the directory after a committed write.
    `KnownComponents` is `known_components`.
  - `_new_state_pending` and `_state_reading` are `NewStatePending` and
    `StateReading`. Each looks its file's name up in `ListDir`, the model of
    `os.listdir`. `Busy` combines them into the writer's busy test.
- `ReaderWriterScenarios` (`scenarios.dfy`) states the three tests of
  `python/tests/component_reader_writer_tests.py` as verified scenarios
  over the model.

Exceptions become values of the datatype `Error`, one constructor per kind of
failure, with the data its message carries.

Each attempt method takes an `interleaved` argument. It stands for another
process that creates `state.next` inside the attempt's race window. For a
read, the window lies between the two checks for `state.next`. For a write,
it lies between the busy check and the exclusive creation of `state.next`.
This makes the re-check of the read protocol reachable. It also makes the
failure of the exclusive `LockFile` reachable. The retry loops pass no
interleaving.

Points where the code behaves differently from what one might expect, and
which the model follows:

- Each loop runs `range(0,41)`, which is 41 attempts. The timeout error
  carries `n=40`, the loop variable's last value.
- The journal entry is written with `writelines` and has no newline after it.
  Successive entries therefore run together on one line
  (`JournalOfTwoCommits`).
- The rename onto `state.current` happens before the journal write.
- A writer whose exclusive create finds a `state.next` that another writer
  made after this writer's busy check does not retry. Its
  `LockFile(..., ignore_exists=False)` raises "requested lock file already
  exists", and that error ends `update_state`.
- The busy check comes before the optimistic check. A stale `old_state` on a
  busy directory is therefore retried rather than failing at once. It fails
  with the conflict once the directory is idle, and times out only if the
  directory stays busy for all 41 attempts. The model, which has no other
  processes between attempts, shows only the timeout.
- An empty current state becomes the sentinel too, because the code uses `or`.
  As a result, an `old_state` that strips to nothing never passes the check
  (`BlankOldStateConflicts`).

## Model

| member | source | states |
|---|---|---|
| `PyStr.Strip` | python/dldbase/componentstate.py:41 | `str.strip()` is never longer than its input and leaves no whitespace at either end; `StripMeetsReference` and `StripUnique` pin it down completely |
| `PyStr.StripMeetsReference` | python/dldbase/componentstate.py:79 | `Strip(s)` is the part of `s` between a whitespace-only prefix and a whitespace-only suffix, and neither of its ends is whitespace |
| `PyStr.StripUnique` | python/dldbase/componentstate.py:120 | that reference definition has only one solution, so it determines the result of `strip()` |
| `PyStr.StripOfStripped` | python/dldbase/componentstate.py:120 | text with no whitespace at either end strips to itself |
| `PyStr.StripIdempotent` | python/dldbase/componentstate.py:41 | stripping the stripped content again changes nothing |
| `PyStr.StripKeepsNoLineBreak` | python/dldbase/componentstate.py:79 | stripping a line adds no line break |
| `PyStr.FirstLine` | python/dldbase/componentstate.py:79 | `readline()` gives the longest prefix with no line break, and the character after it, if any, is a line break |
| `PyStr.EndsWith` | python/dldbase/componentstate.py:59 | `s.endswith(suffix)`: an empty suffix always matches, a suffix longer than `s` never does, and a match means `s` is some text followed by `suffix` |
| `PyStr.EndsWithAppend` | python/dldbase/componentstate.py:59 | conversely, any text followed by `suffix` ends with it |
| `PyStr.FirstLineOfTerminated` | python/dldbase/componentstate.py:42 | a line written with a newline after it reads back as that line |
| `ComponentState.FileName.Text` | python/dldbase/componentstate.py:19-22 | the four file names `state.current`, `state.next`, `state.read` and `state.log`, each starting with `state.` |
| `ComponentState.TextInjective` | python/dldbase/componentstate.py:19-22 | no two of the four file names are alike |
| `ComponentState.NapsCountsSleeps` | python/dldbase/componentstate.py:96-99 | the number of sleeps before the first `n` attempts is the number of retries `0 < retry < n` with `retry % 4 == 1` |
| `ComponentState.JoinPath` | python/dldbase/componentstate.py:55 | the state directory's path ends with the component name; a relative name keeps the root as the path's prefix, and an absolute name replaces the root |
| `ComponentState.LockText` | python/dldbase/componentstate.py:40-42 | a created marker file is empty unless its content is truthy; otherwise it holds the stripped content and a newline |
| `ComponentState.ReadState` | python/dldbase/componentstate.py:79 | the state read from a file is the strip of its first line, so it has no line break and no whitespace at either end |
| `ComponentState.ReadCurrentState` | python/dldbase/componentstate.py:76-81 | a state is read exactly when `state.current` exists, and it is the strip of that file's first line, so one stripped line |
| `ComponentState.ListDir` | python/dldbase/componentstate.py:71 | `os.listdir` lists a file's name exactly when the file is in the directory |
| `ComponentState.ListDirCount` | python/dldbase/componentstate.py:71 | the listing names each file once: it has as many names as the directory has files |
| `ComponentState.NewStatePending` | python/dldbase/componentstate.py:70-71 | `state.next` is listed exactly when a write is in flight, that is, when `state.next` is in the directory |
| `ComponentState.StateReading` | python/dldbase/componentstate.py:73-74 | `state.read` is listed exactly when `state.read` is in the directory |
| `ComponentState.Busy` | python/dldbase/componentstate.py:117 | a writer finds the directory busy exactly when `state.read` or `state.next` is in it |
| `ComponentState.Prior` | python/dldbase/componentstate.py:116 | the prior state is never empty: it is the current state, or `[[NA]]]` when there is none or it is empty |
| `ComponentState.Conflicts` | python/dldbase/componentstate.py:119-121 | with `old_state=None` there is no conflict; against a non-empty current state, a given `old_state` conflicts exactly when its strip differs from that state; with no or an empty current state, exactly when its strip differs from `[[NA]]]` |
| `ComponentState.Committed` | python/dldbase/componentstate.py:123-127 | after a commit no `state.next` is left, `state.current` exists, and the journal is the old journal followed by one entry naming the prior state; `CommitEffects` adds the frame and the read-back |
| `ComponentState.JournalEntry` | python/dldbase/componentstate.py:126-127 | an entry ends with `" -> "` and the new state as given, not stripped |
| `ComponentState.KnownComponents` | python/dldbase/componentstate.py:57-60 | a name is known exactly when some environment key ending in `_DLD_NAME` maps to it |
| `ComponentState.KnownComponentsBound` | python/dldbase/componentstate.py:60 | the set of names is no larger than the environment |
| `ComponentState.KnownComponentsShareName` | python/dldbase/componentstate.py:59-60 | names are deduplicated: when every suffixed entry names the same component, exactly one name is known, however many entries there are |
| `ComponentState.KnownComponentsUpdate` | python/dldbase/componentstate.py:59 | setting an entry adds its value when its key ends in `_DLD_NAME`, and adds nothing otherwise |
| `ComponentState.ReadStrippedLine` | python/dldbase/componentstate.py:76-81 | a state file holding a stripped line and a newline reads back as that line |
| `ComponentState.ReadBackLockText` | python/dldbase/componentstate.py:38-43 | for a single-line state, what `LockFile` writes reads back as `new_state.strip()` |
| `ComponentState.CommitEffects` | python/dldbase/componentstate.py:123-127 | a committed write leaves no `state.next` and changes only `state.current` and `state.log`; the journal gains exactly one entry recording the prior state; a later read returns `new_state.strip()` for single-line input |
| `ComponentState.ConflictsAfterCommit` | python/dldbase/componentstate.py:116-121 | after a write of a non-blank single-line state, a later write passes the optimistic check if and only if its `old_state` strips to that state |
| `ComponentState.BlankOldStateConflicts` | python/dldbase/componentstate.py:116-121 | an `old_state` that strips to nothing always fails the optimistic check |
| `ComponentState.SentinelIsAmbiguous` | python/dldbase/componentstate.py:116 | a missing state and a state that reads `[[NA]]]` give the same prior state, and `old_state='[[NA]]]'` passes the check on both |
| `ComponentState.JournalEntryIsOneLine` | python/dldbase/componentstate.py:126-127 | an entry built from single-line parts holds no line break |
| `ComponentState.JournalOfTwoCommits` | python/dldbase/componentstate.py:124-127 | two commits leave their two entries back to back in the journal, with nothing between them |
| `ComponentState.ComponentDir.constructor` | python/dldbase/componentstate.py:66-74 | the component's directory: whether it exists and the files it holds, and a directory that does not exist holds none |
| `ComponentState.LockFile.constructor` | python/dldbase/componentstate.py:25-29 | a lock file keeps its path, content and the two tolerance flags |
| `ComponentState.LockFile.Enter` | python/dldbase/componentstate.py:31-43 | on an existing file, the path is returned if `ignore_exists`; otherwise "lock file already exists" is raised; either way the directory is unchanged. On an absent file, the file is created with `LockText` and the path is returned. In a missing directory, which holds no files, `open` fails. |
| `ComponentState.LockFile.Exit` | python/dldbase/componentstate.py:45-50 | the file is always gone afterwards, even one that `Enter` tolerated; release succeeds if and only if the file was there or `ignore_removed` is set, and otherwise fails with ENOENT |
| `ComponentState.ComponentStateReaderWriter.constructor` | python/dldbase/componentstate.py:53-55 | the state directory is the component name joined onto `/dld-component-states` |
| `ComponentState.ComponentStateReaderWriter.EnsureStateDir` | python/dldbase/componentstate.py:66-68 | a missing directory is the error "missing component state dir", naming the directory, and is never created |
| `ComponentState.ComponentStateReaderWriter.ReadAttempt` | python/dldbase/componentstate.py:85-94 | it fails if the directory is missing, which then holds no files. It retries, changing nothing, while `state.next` exists. Past that check, it retries if a `state.next` appears before the re-check, and otherwise returns the current state. `state.read` is absent afterwards, and `state.current` and `state.log` are untouched. |
| `ComponentState.ComponentStateReaderWriter.GetState` | python/dldbase/componentstate.py:96-107 | at most 41 attempts, and the first result that is not a retry is returned. Under a permanent `state.next` it times out after 41 attempts and 10 sleeps, with `n=40`. A missing directory fails at once. |
| `ComponentState.ComponentStateReaderWriter.Commit` | python/dldbase/componentstate.py:123-127 | `state.next` is created exclusively and renamed onto `state.current`, and the journal gains one entry; an existing `state.next` raises "lock file already exists" and changes nothing |
| `ComponentState.ComponentStateReaderWriter.WriteAttempt` | python/dldbase/componentstate.py:114-127 | it fails if the directory is missing, which then holds no files. It retries, changing nothing, while `state.read` or `state.next` exists. A stale `old_state` raises "concurrent state modification" and changes nothing. Otherwise it commits, unless another writer created `state.next` first, in which case the exclusive create fails. |
| `ComponentState.ComponentStateReaderWriter.UpdateState` | python/dldbase/componentstate.py:130-138 | at most 41 attempts. A missing directory and a conflict are fatal on the first attempt and change nothing. A busy directory times out after 41 attempts with `n=40` and changes nothing. Otherwise the write commits on the first attempt. |
| `ReaderWriterScenarios.GetStateSucceedsWhenUnlocked` | python/tests/component_reader_writer_tests.py:30-32 | with only `state.current` holding a single-line state, `get_state` returns that state |
| `ReaderWriterScenarios.GetStateFailsUnderPermanentWriteLock` | python/tests/component_reader_writer_tests.py:34-36 | with `state.next` present, `get_state` raises the read timeout, naming 40 retries and the component |
| `ReaderWriterScenarios.WriteStateSucceedsWhenUnlocked` | python/tests/component_reader_writer_tests.py:38-50 | `update_state(ready, old_state=init)` succeeds. The journal then holds exactly `"{now} init -> ready"`, which is one line when the timestamp is, and a later read returns `ready`. |

## Left out

- `ComponentState.ComponentStateReaderWriter.GetState`: the attempts run without other processes, so the directory does not change between attempts. The first attempt therefore decides the outcome. Races inside one attempt are modelled through `ReadAttempt`'s `interleaved` argument.
- `ComponentState.ComponentStateReaderWriter.UpdateState`: as for `GetState`, the attempts run without other processes. The exclusive-create race is modelled through `WriteAttempt`'s `interleaved` argument.
- True multi-process interleaving and the atomicity of `os.rename`: the model is sequential apart from the one `interleaved` process per attempt. The ordering and atomic-visibility guarantees between processes are not modelled.
- `time.sleep(0.01)` and the `COMPONENT_LOG.debug` traces in both retry loops are no-ops. Only their number is kept, as the ghost counter `naps`.
- `datetime.datetime.now()` in journal entries is the parameter `now`.
- The `ComponentState` namedtuple adds a timestamp to a record and has nothing to prove.
- Failures of `open`, `os.rename` or the journal write inside the commit block are not modelled. So is the clean-up that `__exit__` would then do. `os.utime` is a no-op.
- Error messages are values of `Error` carrying their data, not formatted text. Errno codes other than ENOENT, and the Python 2 difference between `IOError` and `OSError`, are not modelled.
- Paths inside the component directory are the four `FileName` values. `osp.join` is modelled only for the directory's own path. The tests' override of `_state_dir` is not modelled; the root is the constant `/dld-component-states`.
- File text is a string of characters; encodings are not modelled. The model follows Python 3's `str.strip()` and text-mode `readline()`. Under Python 2.7, `readline()` gives a byte string whose `strip()` removes only ASCII whitespace, and a lone `\r` ends no line in plain `'r'` mode.
- The fixture directories of the tests are not part of this model. The scenarios assume that `store-ready` and `store-init` hold only a single-line `state.current`, and that `store-transient` holds a `state.next`.
- `python/dldbase/dockerutil.py` wraps an external container-engine client and is not part of this model.
- `python/dldbase/logutil.py` is logging configuration and is not part of this model.
- The Python 2/3 shims of `python/dldbase/__init__.py` are not modelled. Its two constants appear as `NameSuffix` and `StateRoot`.

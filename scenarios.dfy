/**
 * The scenarios of python/tests/component_reader_writer_tests.py, stated
 * as verified scenarios over the model. The fixture directories themselves are not part of
 * this model: store-ready is taken to hold state.current with a single
 * line naming the state, store-init to hold only such a state.current.
 * Each scenario is stated for any such state; the tests' "ready" and
 * "init" are instances.
 */
module ReaderWriterScenarios {
  import opened Wrappers
  import opened PyStr
  import opened ComponentState

  /** `test_get_state_succeeds_when_unlocked`: the state is read on the first attempt. */
  method GetStateSucceedsWhenUnlocked(state: string) returns (r: Outcome<Option<string>>)
    requires NoLineBreak(state) && Stripped(state)
    ensures r == Ok(Some(state))
  {
    var dir := new ComponentDir(true, map[StateCurrent := state + "\n"]);
    var csrw := new ComponentStateReaderWriter("store-ready", dir);
    ghost var attempts, naps;
    r, attempts, naps := csrw.GetState();
    ReadStrippedLine(state);
  }

  /** `test_get_state_fails_when_permanent_write_lock_in_place`, for any directory that holds state.next */
  method GetStateFailsUnderPermanentWriteLock(files: map<FileName, string>) returns (r: Outcome<Option<string>>)
    requires StateNext in files
    ensures r == Err(ReadTimeout(40, "store-transient"))
  {
    var dir := new ComponentDir(true, files);
    var csrw := new ComponentStateReaderWriter("store-transient", dir);
    ghost var attempts, naps;
    r, attempts, naps := csrw.GetState();
  }

  /** The directory of the write test before the write: state.current holds `init`. */
  lemma InitialDirectory(init: string)
    requires init != [] && NoLineBreak(init) && Stripped(init)
    ensures var files := map[StateCurrent := init + "\n"];
      Prior(files) == init && !Busy(files) && !Conflicts(Some(init), files)
  {
    ReadStrippedLine(init);
    StripOfStripped(init);
  }

  /** The directory of the write test after the write of `ready`. */
  lemma CommittedDirectory(now: string, init: string, ready: string)
    requires init != [] && NoLineBreak(init) && Stripped(init)
    requires ready != [] && NoLineBreak(ready) && Stripped(ready)
    ensures var after := Committed(map[StateCurrent := init + "\n"], now, ready);
      && LogText(after) == now + " " + init + " -> " + ready
      && (NoLineBreak(now) ==> NoLineBreak(LogText(after)))
      && !NewStatePending(after) && ReadCurrentState(after) == Some(ready)
  {
    var files := map[StateCurrent := init + "\n"];
    InitialDirectory(init);
    CommitEffects(files, now, ready);
    StripOfStripped(ready);
    if NoLineBreak(now) {
      JournalEntryIsOneLine(now, init, ready);
    }
  }

  /**
   * `test_write_state_succeeds_when_unlocked`, followed by a read:
   * `update_state(ready, old_state=init)` on a directory whose state is
   * `init` leaves the journal holding the one entry `"{now} init -> ready"`,
   * a single line when the timestamp is, and the state reads back as `ready`.
   */
  method WriteStateSucceedsWhenUnlocked(now: string, init: string, ready: string)
    returns (r: Outcome<()>, journal: string, later: Outcome<Option<string>>)
    requires init != [] && NoLineBreak(init) && Stripped(init)
    requires ready != [] && NoLineBreak(ready) && Stripped(ready)
    ensures r == Ok(())
    ensures journal == now + " " + init + " -> " + ready
    ensures NoLineBreak(now) ==> NoLineBreak(journal)
    ensures later == Ok(Some(ready))
  {
    var dir := new ComponentDir(true, map[StateCurrent := init + "\n"]);
    var csrw := new ComponentStateReaderWriter("store-init", dir);
    InitialDirectory(init);
    CommittedDirectory(now, init, ready);
    ghost var attempts, naps;
    r, attempts, naps := csrw.UpdateState(now, ready, Some(init));
    journal := LogText(dir.files);
    later, attempts, naps := csrw.GetState();
  }
}

/**
 * The persisted form of one task's progress, copied field by field from the task, and
 * the part of a task (`TaskFromStruct`) that the copy reads.
 */
module TaskSaves {
  import opened Wrappers

  /** What a save reads from a task. Timestamps are epoch milliseconds, zero when unset. */
  datatype TaskRecord = TaskRecord(
    structId: int,
    completedOn: int,
    trackedOn: int,
    ignoredOn: int,
    tags: Option<set<string>>)

  datatype ConfigTaskSave = ConfigTaskSave(
    completed: int,
    tracked: int,
    structId: int,
    ignored: int,
    tags: set<string>)

  /** Whether any of the three timestamps is set. */
  predicate HasProgress(task: TaskRecord)
  {
    task.completedOn != 0 || task.ignoredOn != 0 || task.trackedOn != 0
  }

  predicate SaveHasProgress(save: ConfigTaskSave)
  {
    save.completed != 0 || save.ignored != 0 || save.tracked != 0
  }

  /**
   * The constructor: the timestamps and struct id are copied, and the tag set is a copy
   * of the task's, or empty when the task has none. A copied set is a value, so later
   * changes to the task's tags cannot reach it.
   */
  function FromTask(task: TaskRecord): (r: ConfigTaskSave)
    ensures r.completed == task.completedOn && r.tracked == task.trackedOn && r.ignored == task.ignoredOn
    ensures r.structId == task.structId
    ensures task.tags.None? ==> r.tags == {}
    ensures task.tags.Some? ==> r.tags == task.tags.value
    ensures SaveHasProgress(r) <==> HasProgress(task)
  {
    ConfigTaskSave(task.completedOn, task.trackedOn, task.structId, task.ignoredOn, task.tags.GetOr({}))
  }

  /**
   * Two tasks give the same save exactly when they agree on the timestamps and the
   * struct id and have equal tag sets, a missing set counting as empty.
   */
  lemma SameSaveIffSameFields(a: TaskRecord, b: TaskRecord)
    ensures FromTask(a) == FromTask(b) <==>
      && a.completedOn == b.completedOn && a.trackedOn == b.trackedOn && a.ignoredOn == b.ignoredOn
      && a.structId == b.structId
      && a.tags.GetOr({}) == b.tags.GetOr({})
  {
  }
}

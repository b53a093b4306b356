/** The records the board view reads from the plugin's project cache.
    Every optional field of the TypeScript records (`field?: string`, or a
    field that may hold `null`) is an `Option`; the `??` operator skips only
    a missing value, so `Some("")` is a present value like any other. */
module PlaneTypes {

  datatype Option<+T> = None | Some(value: T)

  /** A work item. `stateId` and `legacyState` are the item's `state_id`
      and `state` fields; `moduleRef` and `legacyModuleId` are its `module`
      and `module_id` fields. */
  datatype WorkItem = WorkItem(
    id: string,
    name: string,
    identifier: Option<string>,
    priority: Option<string>,
    stateId: Option<string>,
    legacyState: Option<string>,
    moduleRef: Option<string>,
    legacyModuleId: Option<string>)

  /** A workflow state of the project: one candidate column of the board. */
  datatype PlaneState = PlaneState(id: string, name: string, color: Option<string>)

  /** A module of the project, used by the module filter and for labels. */
  datatype PlaneModule = PlaneModule(id: string, name: string)

  /** The cached data of the selected project (or the empty project). */
  datatype ProjectData = ProjectData(
    workItems: seq<WorkItem>,
    modules: seq<PlaneModule>,
    states: seq<PlaneState>)
}

/** Status enumerations. They hold the members of the source's enumerations
    and, in addition, the members the dispatcher and monitor refer to that the
    enumerations lack (IDLE, SUCCEEDED, UNKNOWN, and the monitor status). */
module Status {

  datatype ActionNodeStatus =
    | NotStarted | Started | InProgress | Done | Failed | Skipped
    | Succeeded | Unknown

  datatype ConditionStatus =
    | CondNotStarted | CondStarted | CondInProgress | CondDone | CondFailed | CondSkipped | CondTimeout
    | CondSucceeded

  datatype DispatcherStatus =
    | DispatcherNotStarted | DispatcherStarted | DispatcherInProgress | DispatcherFailed | DispatcherFinished
    | DispatcherIdle

  datatype MonitorStatus = MonitorIdle | MonitorStarted | MonitorFinished | MonitorFailed
}

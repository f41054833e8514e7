/** Value types shared by the application and the platform components. */
module Domain {

  datatype Option<+T> = None | Some(value: T)

  datatype SessionStatus = Idle | Running | Stopped | Fault

  datatype StopReason = NoReason | User | TimerCompleted | FaultStop | RecoveryNotAllowed

  datatype FaultCode =
    | ChamberSensorInvalid
    | ChamberOverTemperature
    | ControlLoopFailure
    | ConfigurationInvalid

  datatype AlarmCode = ProbeTargetAlarm | ProbeDisconnectedAlarm | TimerCompletedAlarm

  datatype ProbeRole = Meat | AmbientMonitor | Unassigned
}

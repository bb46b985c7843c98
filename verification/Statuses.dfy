/** The states a thread or a process can be in (Kernel/include/threads.h, process.h): two
    enumerations with the same six values in the same order. */
module Statuses {
  datatype Cause = OnIO | OnMutex | OnPipe

  datatype Status = Ready | Running | Blocked(cause: Cause) | Dead

  /** T_BLOCKED_MUTEX: semaphores and mutexes block alike. */
  const BLOCKED_MUTEX: Status := Blocked(OnMutex)

  datatype Tid = Tid(pid: int, pthread: int)
}

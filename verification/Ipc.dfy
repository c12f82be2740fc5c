/** What the IPC objects of ipc.c share: the return codes and the arithmetic of waiting times. */
module Ipc {
  /** `InProgress` stands for a call that goes on, into the next region or onto a wait list. */
  datatype Code = EOK | EFULL | ETIMEOUT | ERROR | InProgress

  /** The waiting time left after `elapsed` ticks; a negative time waits for ever. */
  function Remaining(timeout: int, elapsed: nat): (left: int)
    ensures timeout < 0 ==> left == timeout
    ensures timeout >= 0 ==> left >= 0 && timeout - elapsed <= left <= timeout
    ensures timeout >= 0 && left > 0 ==> left == timeout - elapsed
  {
    if timeout > 0 then (if timeout < elapsed then 0 else timeout - elapsed) else timeout
  }
}

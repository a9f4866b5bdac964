/** The numbers of Linux on x86_64, as the kernel uses them. The program's own constants live with its model. */
module Linux {
  /** The ptrace events that announce a new process: fork, vfork and clone. */
  predicate CarriesChild(evt: int) { 1 <= evt <= 3 }

  const EXEC_EVENT := 4

  const SIGTRAP := 5
  const SIGSTOP := 19

  const ESRCH := 3
  const EINTR := 4
  const EIO := 5
  const ECHILD := 10
}

/** Constants and records shared by the kernel, the file system and the memory
    manager (include/proc.h, include/msg.h). */
module ProcTable {

  const NR_TASKS := 5
  const NR_NATIVE_PROCS := 4
  const NR_USER_PROCS := 32
  const NR_PROCS := NR_TASKS + NR_USER_PROCS

  const TASK_TTY := 0
  const TASK_MM := 4
  const INIT := 5

  const INTERRUPT := -10
  const ANY := NR_PROCS + 10
  const NO_TASK := NR_PROCS + 20

  const HARD_INT := 1

  /** Index of a slot of the process table. */
  type Pid = p: int | 0 <= p < NR_PROCS witness 0

  /** The bits of p_flags; RUNNING is the empty set of bits. */
  datatype Flag = SENDING | RECEIVING | WAITING | HANGING | FREE_SLOT

  /** A MESSAGE: the body stands for the union u. */
  datatype Message = Message(source: int, kind: int, body: seq<int>)

  /** A virtual address of a MESSAGE; 0 is the null pointer. */
  type Addr = int

  /** The message buffers of one process. */
  type Memory = map<Addr, Message>

  const ZERO_MESSAGE := Message(0, 0, [])

  function Load(memory: Memory, a: Addr): Message {
    if a in memory then memory[a] else ZERO_MESSAGE
  }

  /** A struct proc pointer that may be null. */
  datatype Link = Nil | To(pid: Pid)
}

/**
  The control loop, its attempt tasks, the update queue and the slot, as one transition system.

  Every interleaving is a sequence of events: turns of the loop, and steps of whatever tasks are
  alive. Tasks may send while being cancelled, may give up or die at any moment, and nothing in
  the transition system itself limits how many of them there are.
 */
module Protocol {
  import opened Basics
  import opened Platform
  import opened Onboarding
  import opened Session
  import opened ControlLoop

  const UPDATE_QUEUE_CAPACITY := 8

  datatype Message = Message(generation: nat, update: Update)

  /** Where one attempt task is; `lease` says whether it owns the slot. */
  datatype Stage = Spawned | Refused | Running | Closing(lease: bool)
  {
    predicate HoldsLease() {
      Running? || (Closing? && lease)
    }

    /** The task has nothing more to send. */
    predicate Silent() {
      Closing?
    }
  }

  datatype State = State(
    loop: Loop,
    control: Control,
    tasks: map<nat, Stage>,
    slot: Option<nat>,
    queue: seq<Message>,
    shown: seq<Snapshot>,
    launches: seq<Launch>)

  datatype Event =
    | Handle(command: Command, identityAvailable: bool)
    | CloseCommands
    | Receive
    | Joined(identityAvailable: bool)
    | TaskAcquires(task: nat)
    | TaskSends(task: nat, update: Update)
    | TaskReturns(task: nat)
    | TaskEnds(task: nat)

  function Initial(capabilities: Capabilities): State {
    State(Published(InitialLoop(capabilities)), AtSelect, map[], None, [],
          Fresh(InitialLoop(capabilities)), [])
  }

  /** What a running attempt reports: projections of the transport's states. */
  predicate FromTransport(u: Update) {
    !u.IdentityCreated? && (u.AttemptFailed? ==> u.reason.FromGateway?)
  }

  predicate Enabled(s: State, e: Event) {
    match e
    case Handle(_, _) => s.control.AtSelect?
    case CloseCommands => s.control.AtSelect?
    case Receive => s.control.AtSelect? && s.queue != []
    case Joined(_) => s.control.Joining? && s.control.generation !in s.tasks
    case TaskAcquires(g) => g in s.tasks && s.tasks[g].Spawned?
    case TaskSends(g, u) =>
      g in s.tasks && |s.queue| < UPDATE_QUEUE_CAPACITY
      && ((s.tasks[g].Running? && FromTransport(u))
          || (s.tasks[g].Refused? && u == AttemptFailed(ControllerBusy)))
    case TaskReturns(g) => g in s.tasks && (s.tasks[g].Running? || s.tasks[g].Refused?)
    case TaskEnds(g) => g in s.tasks
  }

  /** Installs the result of a turn; a successful launch spawns its task. */
  function Commit(s: State, t: Turn): State {
    s.(loop := t.loop,
       control := t.control,
       shown := s.shown + t.shown,
       launches := if t.launch.Some? then s.launches + [t.launch.value] else s.launches,
       tasks := if t.launch.Some? && t.launch.value.spawned then s.tasks[t.launch.value.generation := Spawned]
                else s.tasks)
  }

  function Step(s: State, e: Event): State
    requires Enabled(s, e)
  {
    match e
    case Handle(c, identity) => Commit(s, HandleCommand(s.loop, c, identity))
    case CloseCommands => Commit(s, HandleClose(s.loop))
    case Receive =>
      Commit(s.(queue := s.queue[1..]), HandleUpdate(s.loop, s.queue[0].generation, s.queue[0].update))
    case Joined(identity) => Commit(s, Resume(s.loop, s.control.next, identity))
    case TaskAcquires(g) =>
      s.(slot := Acquired(s.slot, g), tasks := s.tasks[g := if s.slot.None? then Running else Refused])
    case TaskSends(g, u) =>
      s.(queue := s.queue + [Message(g, u)],
         tasks := if u.Terminal() then s.tasks[g := Closing(s.tasks[g].HoldsLease())] else s.tasks)
    case TaskReturns(g) => s.(tasks := s.tasks[g := Closing(s.tasks[g].HoldsLease())])
    case TaskEnds(g) =>
      s.(slot := if s.tasks[g].HoldsLease() then Released(s.slot, g) else s.slot, tasks := s.tasks - {g})
  }

  predicate Legal(s: State, run: seq<Event>)
    decreases |run|
  {
    run == [] || (Enabled(s, run[0]) && Legal(Step(s, run[0]), run[1..]))
  }

  function After(s: State, run: seq<Event>): State
    requires Legal(s, run)
    decreases |run|
  {
    if run == [] then s else After(Step(s, run[0]), run[1..])
  }
}

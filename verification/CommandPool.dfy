/**
 The pool of command structures and the agent's queue (lib/FreeRTOS/mqtt-agent-interface).
 Tasks share both; every queue operation is one atomic step.
 */
module CommandPools {
  import opened Options

  const POOL_SIZE := 10
  const AGENT_QUEUE_LENGTH := 25

  // The address of a command: those of the pool are its indices.
  type Command = nat
  type Task = nat

  predicate InPool(c: Command) {
    c < POOL_SIZE
  }

  // ----- freertos_agent_message.c over a bounded first-in first-out queue

  class MessageContext {
    const length: nat
    var queue: seq<Command>

    constructor (length: nat)
      ensures this.length == length && queue == []
    {
      this.length := length;
      queue := [];
    }

    // Agent_MessageSend, once any waiting is over.
    method MessageSend(command: Command) returns (sent: bool)
      modifies this
      ensures sent <==> |old(queue)| < length
      ensures queue == if sent then old(queue) + [command] else old(queue)
    {
      sent := |queue| < length;
      if sent {
        queue := queue + [command];
      }
    }

    // Agent_MessageReceive, once any waiting is over.
    method MessageReceive() returns (received: Option<Command>)
      modifies this
      ensures old(queue) == [] ==> received == None && queue == []
      ensures old(queue) != [] ==> received.Some? && old(queue) == [received.value] + queue
    {
      if queue == [] {
        received := None;
      } else {
        received := Some(queue[0]);
        queue := queue[1..];
      }
    }
  }

  // ----- freertos_command_pool.c

  function AllCommands(n: nat): seq<Command> {
    seq(n, i => i)
  }

  class CommandPool {
    var context: MessageContext
    var initialized: bool

    constructor ()
      ensures !initialized && fresh(context)
    {
      context := new MessageContext(0);
      initialized := false;
    }

    // Creates the queue and puts every command in; a second call changes nothing.
    method InitializePool()
      modifies this
      ensures initialized
      ensures old(initialized) ==> context == old(context)
      ensures !old(initialized) ==>
              fresh(context) && context.length == POOL_SIZE && context.queue == AllCommands(POOL_SIZE)
    {
      if !initialized {
        context := new MessageContext(POOL_SIZE);
        for i := 0 to POOL_SIZE
          invariant fresh(context) && context.length == POOL_SIZE
          invariant context.queue == AllCommands(i)
        {
          var commandAdded := context.MessageSend(i);
          assert commandAdded;
        }
        initialized := true;
      }
    }

    method GetCommand() returns (command: Option<Command>)
      requires initialized
      modifies context
      ensures old(context.queue) == [] ==> command == None && context.queue == []
      ensures old(context.queue) != [] ==> command.Some? && old(context.queue) == [command.value] + context.queue
    {
      command := context.MessageReceive();
    }

    // The send must not fail; that it cannot is the callers' duty to return each command once.
    method ReleaseCommand(command: Command) returns (returned: bool)
      requires initialized
      requires InPool(command) ==> |context.queue| < context.length
      modifies context
      ensures returned <==> InPool(command)
      ensures context.queue == if returned then old(context.queue) + [command] else old(context.queue)
    {
      returned := false;
      if InPool(command) {
        returned := context.MessageSend(command);
        assert returned;
      }
    }
  }

  // ----- All tasks together

  // The commands in the pool's queue, in the agent's queue, and in the hands of tasks.
  datatype State = State(free: seq<Command>, agent: seq<Command>, held: map<Command, Task>)

  const INITIAL := State(AllCommands(POOL_SIZE), [], map[])

  // One atomic action of a task: take a command from the pool, send one to the agent, receive
  // one from the agent's queue, give one back.
  datatype Step =
    | Get(task: Task)
    | Send(task: Task, command: Command)
    | Receive(task: Task)
    | Release(task: Task, command: Command)

  // A task sends and releases only what it holds.
  predicate Lawful(s: State, step: Step) {
    match step
    case Get(_) => true
    case Send(task, c) => c in s.held && s.held[c] == task
    case Receive(_) => true
    case Release(task, c) => c in s.held && s.held[c] == task
  }

  function Apply(s: State, step: Step): State {
    match step
    case Get(task) =>
      if s.free == [] then s else State(s.free[1..], s.agent, s.held[s.free[0] := task])
    case Send(_, c) =>
      if |s.agent| < AGENT_QUEUE_LENGTH then State(s.free, s.agent + [c], s.held - {c}) else s
    case Receive(task) =>
      if s.agent == [] then s else State(s.free, s.agent[1..], s.held[s.agent[0] := task])
    case Release(_, c) =>
      if InPool(c) && |s.free| < POOL_SIZE then State(s.free + [c], s.agent, s.held - {c}) else s
  }

  function ApplyAll(s: State, steps: seq<Step>): State
    decreases |steps|
  {
    if steps == [] then s else ApplyAll(Apply(s, steps[0]), steps[1..])
  }

  predicate LawfulAll(s: State, steps: seq<Step>)
    decreases |steps|
  {
    steps != [] ==> Lawful(s, steps[0]) && LawfulAll(Apply(s, steps[0]), steps[1..])
  }

  // Where every command is, counted with repetition.
  function Places(s: State): multiset<Command> {
    multiset(s.free) + multiset(s.agent) + multiset(s.held.Keys)
  }

  // Every command of the pool is in exactly one place, and nothing else is anywhere.
  ghost predicate Partitioned(s: State) {
    forall c: Command :: Places(s)[c] == if InPool(c) then 1 else 0
  }

  lemma HeadAndTail(q: seq<Command>)
    requires q != []
    ensures multiset(q) == multiset{q[0]} + multiset(q[1..])
  {
    assert q == [q[0]] + q[1..];
  }

  lemma Taken(held: map<Command, Task>, c: Command, task: Task)
    requires c !in held
    ensures multiset(held[c := task].Keys) == multiset(held.Keys) + multiset{c}
  {
    assert held[c := task].Keys == held.Keys + {c};
  }

  lemma GivenUp(held: map<Command, Task>, c: Command)
    requires c in held
    ensures multiset(held.Keys) == multiset((held - {c}).Keys) + multiset{c}
  {
    assert held.Keys == (held - {c}).Keys + {c};
  }

  lemma InitiallyPartitioned()
    ensures Partitioned(INITIAL)
  {
    PoolHasEachOnce(POOL_SIZE);
    assert INITIAL.held.Keys == {};
  }

  lemma {:induction false} PoolHasEachOnce(n: nat)
    ensures forall c: Command :: multiset(AllCommands(n))[c] == if c < n then 1 else 0
  {
    if n > 0 {
      PoolHasEachOnce(n - 1);
      assert AllCommands(n) == AllCommands(n - 1) + [n - 1];
    } else {
      assert AllCommands(0) == [];
    }
  }

  // Ten commands are somewhere.
  lemma TenInAll(s: State)
    requires Partitioned(s)
    ensures Places(s) == multiset(AllCommands(POOL_SIZE))
    ensures |s.free| + |s.agent| + |s.held| == POOL_SIZE
  {
    PoolHasEachOnce(POOL_SIZE);
    assert Places(s) == multiset(AllCommands(POOL_SIZE));
    assert |Places(s)| == |multiset(s.free)| + |multiset(s.agent)| + |multiset(s.held.Keys)|;
  }

  // Both queues always have room for a command that a task holds.
  lemma RoomForHeld(s: State, c: Command)
    requires Partitioned(s) && c in s.held
    ensures InPool(c) && |s.free| < POOL_SIZE && |s.agent| < POOL_SIZE < AGENT_QUEUE_LENGTH
  {
    TenInAll(s);
    assert c in multiset(s.held.Keys);
    assert Places(s)[c] >= 1;
    assert s.held.Keys != {};
  }

  lemma GetKeepsPlaces(s: State, task: Task)
    requires Partitioned(s)
    ensures Places(Apply(s, Get(task))) == Places(s)
  {
    if s.free != [] {
      var c := s.free[0];
      HeadAndTail(s.free);
      assert Places(s)[c] <= 1;
      assert c !in multiset(s.held.Keys);
      Taken(s.held, c, task);
      Moved(multiset{c}, multiset(s.free[1..]), multiset(s.agent), multiset(s.held.Keys));
    }
  }

  lemma ReceiveKeepsPlaces(s: State, task: Task)
    requires Partitioned(s)
    ensures Places(Apply(s, Receive(task))) == Places(s)
  {
    if s.agent != [] {
      var c := s.agent[0];
      HeadAndTail(s.agent);
      assert Places(s)[c] <= 1;
      assert c !in multiset(s.held.Keys);
      Taken(s.held, c, task);
      Moved(multiset{c}, multiset(s.free), multiset(s.agent[1..]), multiset(s.held.Keys));
    }
  }

  lemma Moved(c: multiset<Command>, x: multiset<Command>, y: multiset<Command>, z: multiset<Command>)
    ensures (c + x) + y + z == x + y + (z + c)
    ensures x + (c + y) + z == x + y + (z + c)
    ensures x + (y + c) + z == x + y + (z + c)
    ensures (x + c) + y + z == x + y + (z + c)
  {
  }

  lemma GivenKeepsPlaces(s: State, step: Step)
    requires step.Send? || step.Release?
    requires Lawful(s, step)
    ensures Places(Apply(s, step)) == Places(s)
  {
    var c := step.command;
    GivenUp(s.held, c);
    var rest := multiset((s.held - {c}).Keys);
    Moved(multiset{c}, multiset(s.free), multiset(s.agent), rest);
    assert multiset(s.free + [c]) == multiset(s.free) + multiset{c};
    assert multiset(s.agent + [c]) == multiset(s.agent) + multiset{c};
  }

  // One step moves one command from one place to another, or finds a queue empty.
  lemma StepKeepsPlaces(s: State, step: Step)
    requires Partitioned(s) && Lawful(s, step)
    ensures Places(Apply(s, step)) == Places(s)
    ensures Partitioned(Apply(s, step))
  {
    hide Places, Apply;
    match step
    case Get(task) =>
      GetKeepsPlaces(s, task);
    case Receive(task) =>
      ReceiveKeepsPlaces(s, task);
    case _ =>
      GivenKeepsPlaces(s, step);
  }

  // In every interleaving each command stays in exactly one place.
  lemma {:induction false} AlwaysPartitioned(s: State, steps: seq<Step>)
    requires Partitioned(s) && LawfulAll(s, steps)
    ensures Partitioned(ApplyAll(s, steps))
    decreases |steps|
  {
    if steps != [] {
      StepKeepsPlaces(s, steps[0]);
      AlwaysPartitioned(Apply(s, steps[0]), steps[1..]);
    }
  }

  // After any run from the start: no queue refuses a command, none is handed out twice, and the
  // pool is empty only while all ten are elsewhere.
  lemma Safety(steps: seq<Step>)
    requires LawfulAll(INITIAL, steps)
    ensures var s := ApplyAll(INITIAL, steps);
            && (forall c :: c in s.held ==> |s.free| < POOL_SIZE && |s.agent| < AGENT_QUEUE_LENGTH)
            && |s.agent| <= POOL_SIZE
            && (forall i :: 0 <= i < |s.free| ==> s.free[i] !in s.held && s.free[i] !in s.agent)
            && (forall i, j :: 0 <= i < j < |s.free| ==> s.free[i] != s.free[j])
            && (s.free == [] <==> |s.agent| + |s.held| == POOL_SIZE)
            && (s.agent == [] && s.held == map[] ==> multiset(s.free) == multiset(AllCommands(POOL_SIZE)))
  {
    InitiallyPartitioned();
    AlwaysPartitioned(INITIAL, steps);
    var s := ApplyAll(INITIAL, steps);
    TenInAll(s);
    forall i | 0 <= i < |s.free| ensures s.free[i] !in s.held && s.free[i] !in s.agent {
      NowhereElse(s, s.free[i]);
    }
    forall i, j | 0 <= i < j < |s.free| ensures s.free[i] != s.free[j] {
      TwiceInQueue(s.free, i, j);
      assert Places(s)[s.free[i]] <= 1;
    }
    if s.agent == [] && s.held == map[] {
      assert s.held.Keys == {};
    }
  }

  lemma NowhereElse(s: State, c: Command)
    requires Partitioned(s) && c in s.free
    ensures c !in s.held && c !in s.agent
  {
    assert Places(s)[c] <= 1;
    assert c in multiset(s.free);
    assert c !in multiset(s.held.Keys) && c !in multiset(s.agent);
  }

  lemma TwiceInQueue(q: seq<Command>, i: nat, j: nat)
    requires i < j < |q|
    ensures q[i] == q[j] ==> multiset(q)[q[i]] >= 2
  {
    assert q == q[..j] + [q[j]] + q[j + 1..];
    assert q[i] in q[..j];
    assert multiset(q) == multiset(q[..j]) + multiset{q[j]} + multiset(q[j + 1..]);
  }

  // Holding is what the pool relies on: releasing a command twice leaves it in the pool twice.
  lemma DoubleReleaseDuplicates(s: State, task: Task, c: Command)
    requires Partitioned(s) && Lawful(s, Release(task, c)) && |s.free| + 1 < POOL_SIZE
    ensures var once := Apply(s, Release(task, c));
            !Lawful(once, Release(task, c)) && !Partitioned(Apply(once, Release(task, c)))
  {
    RoomForHeld(s, c);
    var twice := Apply(Apply(s, Release(task, c)), Release(task, c));
    assert twice.free == s.free + [c] + [c];
    assert Places(twice)[c] >= 2;
  }

  // ----- The same machine run by the code

  class Agent {
    const pool: CommandPool
    const agentQueue: MessageContext
    ghost var held: map<Command, Task>

    ghost function Current(): State
      reads this, pool, pool.context, agentQueue
    {
      State(pool.context.queue, agentQueue.queue, held)
    }

    ghost predicate Valid()
      reads this, pool, pool.context, agentQueue
    {
      && pool.initialized
      && pool.context != agentQueue
      && pool.context.length == POOL_SIZE
      && agentQueue.length == AGENT_QUEUE_LENGTH
      && Partitioned(Current())
    }

    constructor ()
      ensures Valid() && Current() == INITIAL
      ensures fresh(pool) && fresh(pool.context) && fresh(agentQueue)
    {
      var p := new CommandPool();
      p.InitializePool();
      pool := p;
      agentQueue := new MessageContext(AGENT_QUEUE_LENGTH);
      held := map[];
      new;
      InitiallyPartitioned();
    }

    // No assertion of the pool fails, sends to the agent always succeed, and the state moves as Apply says.
    method Perform(step: Step) returns (done: bool)
      requires Valid() && Lawful(Current(), step)
      modifies this`held, pool.context, agentQueue
      ensures Valid() && Current() == Apply(old(Current()), step)
      ensures done <==> (step.Get? ==> old(pool.context.queue) != []) && (step.Receive? ==> old(agentQueue.queue) != [])
      ensures !done ==> Current() == old(Current())
      ensures done ==>
                match step
                case Get(task) =>
                  && old(pool.context.queue) == [old(pool.context.queue)[0]] + pool.context.queue
                  && agentQueue.queue == old(agentQueue.queue)
                  && held == old(held)[old(pool.context.queue)[0] := task]
                case Send(task, c) =>
                  && agentQueue.queue == old(agentQueue.queue) + [c]
                  && pool.context.queue == old(pool.context.queue) && held == old(held) - {c}
                case Receive(task) =>
                  && old(agentQueue.queue) == [old(agentQueue.queue)[0]] + agentQueue.queue
                  && pool.context.queue == old(pool.context.queue)
                  && held == old(held)[old(agentQueue.queue)[0] := task]
                case Release(task, c) =>
                  && pool.context.queue == old(pool.context.queue) + [c]
                  && agentQueue.queue == old(agentQueue.queue) && held == old(held) - {c}
    {
      hide Partitioned;
      StepKeepsPlaces(Current(), step);
      match step
      case Get(task) =>
        var command := pool.GetCommand();
        done := command.Some?;
        if done {
          held := held[command.value := task];
        }
      case Send(_, c) =>
        RoomForHeld(Current(), c);
        done := agentQueue.MessageSend(c);
        if done {
          held := held - {c};
        }
      case Receive(task) =>
        var command := agentQueue.MessageReceive();
        done := command.Some?;
        if done {
          held := held[command.value := task];
        }
      case Release(_, c) =>
        RoomForHeld(Current(), c);
        done := pool.ReleaseCommand(c);
        held := held - {c};
    }

    method PerformAll(steps: seq<Step>)
      requires Valid() && LawfulAll(Current(), steps)
      modifies this`held, pool.context, agentQueue
      ensures Valid() && Current() == ApplyAll(old(Current()), steps)
    {
      var rest := steps;
      while rest != []
        invariant Valid() && LawfulAll(Current(), rest)
        invariant ApplyAll(Current(), rest) == ApplyAll(old(Current()), steps)
        decreases |rest|
      {
        var _ := Perform(rest[0]);
        rest := rest[1..];
      }
    }
  }
}

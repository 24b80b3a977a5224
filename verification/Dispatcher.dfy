/** The bounded in-memory command queue and its worker pools. */
module Dispatcher {
  datatype Lane = Console | Heavy | Critical | Normal

  datatype Command = Command(id: string, action: string)

  function Capacity(l: Lane): nat {
    if l == Heavy then 4 else 16
  }

  function Workers(l: Lane): nat {
    match l
    case Console => 8
    case Heavy => 1
    case Critical => 2
    case Normal => 2
  }

  const CONSOLE_ACTIONS := {"vm.console.create-session", "vm.console.revoke-session"}

  const HEAVY_ACTIONS := {"vm.reinstall", "backup.restore", "vm.delete", "snapshot.rollback"}

  const CRITICAL_ACTIONS :=
    {"vm.create", "vm.clone", "vm.set-initial-resources", "vm.set-network",
     "vm.start", "vm.shutdown", "vm.stop", "vm.reboot", "vm.suspend", "vm.resume"}

  function LaneFor(action: string): Lane {
    if action in CONSOLE_ACTIONS then Console
    else if action in HEAVY_ACTIONS then Heavy
    else if action in CRITICAL_ACTIONS then Critical
    else Normal
  }

  /** The lane of every action that does not go to the normal one. */
  lemma ConsoleAndHeavyLanes()
    ensures LaneFor("vm.console.create-session") == LaneFor("vm.console.revoke-session") == Console
    ensures LaneFor("vm.reinstall") == LaneFor("backup.restore") == LaneFor("vm.delete") == LaneFor("snapshot.rollback") == Heavy
  {
  }

  lemma CriticalLanes()
    ensures LaneFor("vm.create") == LaneFor("vm.clone") == LaneFor("vm.set-initial-resources") == Critical
    ensures LaneFor("vm.set-network") == LaneFor("vm.start") == LaneFor("vm.shutdown") == LaneFor("vm.stop") == Critical
    ensures LaneFor("vm.reboot") == LaneFor("vm.suspend") == LaneFor("vm.resume") == Critical
  {
  }

  lemma NormalLane(action: string)
    requires action !in CONSOLE_ACTIONS && action !in HEAVY_ACTIONS && action !in CRITICAL_ACTIONS
    ensures LaneFor(action) == Normal && |CONSOLE_ACTIONS| == 2 && |HEAVY_ACTIONS| == 4 && |CRITICAL_ACTIONS| == 10
  {
  }

  lemma LaneBounds()
    ensures Capacity(Console) == Capacity(Critical) == Capacity(Normal) == 16 && Capacity(Heavy) == 4
    ensures Workers(Console) == 8 && Workers(Heavy) == 1 && Workers(Critical) == Workers(Normal) == 2
  {
  }

  /** How often an id occurs. */
  function Count(ids: seq<string>, id: string): nat {
    if ids == [] then 0 else Count(ids[..|ids| - 1], id) + (if ids[|ids| - 1] == id then 1 else 0)
  }

  lemma {:induction false} CountConcat(a: seq<string>, b: seq<string>, id: string)
    ensures Count(a + b, id) == Count(a, id) + Count(b, id)
  {
    if b == [] {
      assert a + b == a;
    } else {
      CountConcat(a, b[..|b| - 1], id);
      assert (a + b)[..|a + b| - 1] == a + b[..|b| - 1];
    }
  }

  lemma {:induction false} CountPositive(ids: seq<string>, id: string)
    ensures Count(ids, id) > 0 <==> id in ids
  {
    if ids != [] {
      CountPositive(ids[..|ids| - 1], id);
      assert ids == ids[..|ids| - 1] + [ids[|ids| - 1]];
    }
  }

  lemma CountOne(x: string, id: string)
    ensures Count([x], id) == if x == id then 1 else 0
  {
    assert [x][..0] == [];
  }

  function Ids(queue: seq<Command>): seq<string> {
    seq(|queue|, i requires 0 <= i < |queue| => queue[i].id)
  }

  /** One lane: the commands waiting, and the ids its workers hold until they are no
      longer active. */
  datatype Pool = Pool(queue: seq<Command>, running: seq<string>) {
    function Held(id: string): nat {
      Count(Ids(queue), id) + Count(running, id)
    }

    predicate Within(l: Lane) {
      |queue| <= Capacity(l) && |running| <= Workers(l)
    }

    function Enqueue(c: Command): Pool {
      Pool(queue + [c], running)
    }

    function Take(): Pool
      requires queue != []
    {
      Pool(queue[1..], running + [queue[0].id])
    }

    function Finish(i: nat): Pool
      requires i < |running|
    {
      Pool(queue, running[..i] + running[i + 1..])
    }
  }

  lemma HeldEnqueue(p: Pool, c: Command, id: string)
    ensures p.Enqueue(c).Held(id) == p.Held(id) + if c.id == id then 1 else 0
  {
    assert Ids(p.queue + [c]) == Ids(p.queue) + [c.id];
    CountConcat(Ids(p.queue), [c.id], id);
    CountOne(c.id, id);
  }

  lemma HeldTake(p: Pool, id: string)
    requires p.queue != []
    ensures p.Take().Held(id) == p.Held(id)
  {
    var first := p.queue[0].id;
    assert Ids(p.queue) == [first] + Ids(p.queue[1..]);
    CountConcat([first], Ids(p.queue[1..]), id);
    CountConcat(p.running, [first], id);
  }

  lemma HeldFinish(p: Pool, i: nat, id: string)
    requires i < |p.running|
    ensures p.Held(id) == p.Finish(i).Held(id) + if p.running[i] == id then 1 else 0
  {
    var a, b := p.running[..i], p.running[i + 1..];
    assert p.running == a + ([p.running[i]] + b);
    CountConcat(a, [p.running[i]] + b, id);
    CountConcat([p.running[i]], b, id);
    CountConcat(a, b, id);
    CountOne(p.running[i], id);
  }

  // ------------------------------------------------------------------ All lanes

  datatype Pools = Pools(console: Pool, heavy: Pool, critical: Pool, normal: Pool) {
    function Of(l: Lane): Pool {
      match l
      case Console => console
      case Heavy => heavy
      case Critical => critical
      case Normal => normal
    }

    function Set(l: Lane, p: Pool): Pools {
      match l
      case Console => this.(console := p)
      case Heavy => this.(heavy := p)
      case Critical => this.(critical := p)
      case Normal => this.(normal := p)
    }

    /** How often an id is queued or executing, over all lanes. */
    function Total(id: string): nat {
      console.Held(id) + heavy.Held(id) + critical.Held(id) + normal.Held(id)
    }

    predicate Bounded() {
      forall l: Lane :: Of(l).Within(l)
    }

    /** Exactly the active ids are queued or executing, each of them once. */
    ghost predicate Exact(active: set<string>) {
      forall id :: Total(id) == if id in active then 1 else 0
    }
  }

  lemma TotalSet(pools: Pools, l: Lane, p: Pool, id: string)
    ensures pools.Set(l, p).Total(id) == pools.Total(id) - pools.Of(l).Held(id) + p.Held(id)
  {
  }

  lemma SetBounded(pools: Pools, l: Lane, p: Pool)
    requires pools.Bounded() && p.Within(l)
    ensures pools.Set(l, p).Bounded()
    ensures forall k: Lane :: pools.Set(l, p).Of(k) == if k == l then p else pools.Of(k)
  {
    forall k: Lane ensures pools.Set(l, p).Of(k) == (if k == l then p else pools.Of(k)) && pools.Of(k).Within(k) {
    }
  }

  lemma AfterEnqueue(pools: Pools, active: set<string>, l: Lane, c: Command)
    requires pools.Exact(active) && c.id !in active
    ensures pools.Set(l, pools.Of(l).Enqueue(c)).Exact(active + {c.id})
  {
    forall id ensures pools.Set(l, pools.Of(l).Enqueue(c)).Total(id) == if id in active + {c.id} then 1 else 0 {
      TotalSet(pools, l, pools.Of(l).Enqueue(c), id);
      HeldEnqueue(pools.Of(l), c, id);
      assert pools.Total(id) == if id in active then 1 else 0;
    }
  }

  lemma QueuesAfterEnqueue(pools: Pools, handed: map<Lane, seq<string>>, l: Lane, c: Command)
    requires forall k: Lane :: k in handed
    ensures forall k: Lane ::
              handed[k] + Ids(pools.Set(l, pools.Of(l).Enqueue(c)).Of(k).queue)
              == handed[k] + Ids(pools.Of(k).queue) + if k == l then [c.id] else []
  {
    forall k: Lane
      ensures handed[k] + Ids(pools.Set(l, pools.Of(l).Enqueue(c)).Of(k).queue)
              == handed[k] + Ids(pools.Of(k).queue) + if k == l then [c.id] else []
    {
      if k == l {
        assert Ids(pools.Of(l).queue + [c]) == Ids(pools.Of(l).queue) + [c.id];
        assert pools.Set(l, pools.Of(l).Enqueue(c)).Of(k).queue == pools.Of(l).queue + [c];
      } else {
        assert pools.Set(l, pools.Of(l).Enqueue(c)).Of(k) == pools.Of(k);
        assert handed[k] + Ids(pools.Of(k).queue) + [] == handed[k] + Ids(pools.Of(k).queue);
      }
    }
  }

  lemma AfterTake(pools: Pools, active: set<string>, l: Lane)
    requires pools.Exact(active) && pools.Of(l).queue != []
    ensures pools.Set(l, pools.Of(l).Take()).Exact(active)
  {
    forall id ensures pools.Set(l, pools.Of(l).Take()).Total(id) == if id in active then 1 else 0 {
      TotalSet(pools, l, pools.Of(l).Take(), id);
      HeldTake(pools.Of(l), id);
      assert pools.Total(id) == if id in active then 1 else 0;
    }
  }

  lemma AfterFinish(pools: Pools, active: set<string>, l: Lane, i: nat)
    requires pools.Exact(active) && i < |pools.Of(l).running|
    ensures pools.Set(l, pools.Of(l).Finish(i)).Exact(active - {pools.Of(l).running[i]})
  {
    var done := pools.Of(l).running[i];
    forall id ensures pools.Set(l, pools.Of(l).Finish(i)).Total(id) == if id in active - {done} then 1 else 0 {
      TotalSet(pools, l, pools.Of(l).Finish(i), id);
      HeldFinish(pools.Of(l), i, id);
      assert pools.Total(id) == if id in active then 1 else 0;
    }
  }

  /** An exact dispatcher holds an id exactly when it is active, and never twice. */
  lemma ExactMeansOnce(pools: Pools, active: set<string>, id: string)
    requires pools.Exact(active)
    ensures id in active <==> exists l: Lane :: id in Ids(pools.Of(l).queue) || id in pools.Of(l).running
    ensures forall l: Lane :: Count(Ids(pools.Of(l).queue), id) + Count(pools.Of(l).running, id) <= 1
  {
    assert pools.Total(id) == if id in active then 1 else 0;
    forall l: Lane
      ensures Count(Ids(pools.Of(l).queue), id) > 0 <==> id in Ids(pools.Of(l).queue)
      ensures Count(pools.Of(l).running, id) > 0 <==> id in pools.Of(l).running
    {
      CountPositive(Ids(pools.Of(l).queue), id);
      CountPositive(pools.Of(l).running, id);
    }
    if id in active {
      assert pools.Of(Console).Held(id) > 0 || pools.Of(Heavy).Held(id) > 0
          || pools.Of(Critical).Held(id) > 0 || pools.Of(Normal).Held(id) > 0;
    }
  }

  class CommandDispatcher {
    var active: set<string>
    var pools: Pools
    /** The ids each lane has handed to a worker, in order. */
    ghost var handed: map<Lane, seq<string>>

    ghost predicate Valid()
      reads this
    {
      pools.Exact(active) && pools.Bounded() && forall l: Lane :: l in handed
    }

    /** The ids a lane has accepted, in order: those handed out, then those waiting. */
    ghost function Accepted(l: Lane): seq<string>
      requires l in handed
      reads this
    {
      handed[l] + Ids(pools.Of(l).queue)
    }

    constructor ()
      ensures Valid() && active == {} && forall l: Lane :: handed[l] == Accepted(l) == []
    {
      active, pools := {}, Pools(Pool([], []), Pool([], []), Pool([], []), Pool([], []));
      handed := map[Console := [], Heavy := [], Critical := [], Normal := []];
      new;
      forall l: Lane ensures l in handed && handed[l] == [] && Accepted(l) == [] {
        assert pools.Of(l).queue == [];
      }
    }

    /** The lane has room for one more command. */
    predicate Room(l: Lane)
      reads this
    {
      |pools.Of(l).queue| < Capacity(l)
    }

    /** Whether the lane could take the command now. */
    method HasCapacity(c: Command) returns (ok: bool)
      ensures ok <==> c.id in active || Room(LaneFor(c.action))
    {
      ok := c.id in active || Room(LaneFor(c.action));
    }

    /** Accept a command once, without blocking. */
    method Submit(c: Command) returns (ok: bool)
      requires Valid()
      modifies this
      ensures Valid()
      ensures ok <==> c.id in old(active) || old(Room(LaneFor(c.action)))
      ensures active == if ok then old(active) + {c.id} else old(active)
      ensures pools == if ok && c.id !in old(active)
                       then old(pools).Set(LaneFor(c.action), old(pools).Of(LaneFor(c.action)).Enqueue(c))
                       else old(pools)
      // A lane's order of acceptance grows at its end, and only here.
      ensures handed == old(handed)
      ensures forall k: Lane :: Accepted(k) ==
                old(Accepted(k)) + if ok && c.id !in old(active) && k == LaneFor(c.action) then [c.id] else []
    {
      if c.id in active {
        return true;
      }
      ok := Enqueue(LaneFor(c.action), c);
    }

    method Enqueue(l: Lane, c: Command) returns (ok: bool)
      requires Valid() && c.id !in active
      modifies this
      ensures Valid()
      ensures ok <==> old(Room(l))
      ensures active == if ok then old(active) + {c.id} else old(active)
      ensures pools == if ok then old(pools).Set(l, old(pools).Of(l).Enqueue(c)) else old(pools)
      ensures handed == old(handed)
      ensures forall k: Lane :: Accepted(k) == old(Accepted(k)) + if ok && k == l then [c.id] else []
    {
      if !Room(l) {
        return false;
      }
      AfterEnqueue(pools, active, l, c);
      SetBounded(pools, l, pools.Of(l).Enqueue(c));
      QueuesAfterEnqueue(pools, handed, l, c);
      pools := pools.Set(l, pools.Of(l).Enqueue(c));
      active := active + {c.id};
      return true;
    }

    /** An idle worker of a lane takes the oldest command. */
    method Take(l: Lane) returns (taken: bool)
      requires Valid()
      modifies this`pools, this`handed
      ensures Valid()
      ensures taken <==> old(pools).Of(l).queue != [] && |old(pools).Of(l).running| < Workers(l)
      ensures pools == if taken then old(pools).Set(l, old(pools).Of(l).Take()) else old(pools)
      ensures forall k: Lane :: |pools.Of(k).queue| <= |old(pools).Of(k).queue|
      // The worker gets the id that was accepted first of those still waiting.
      ensures forall k: Lane :: Accepted(k) == old(Accepted(k))
      ensures taken ==> |old(handed)[l]| < |Accepted(l)|
      ensures taken ==> var next := Accepted(l)[|old(handed)[l]|];
                pools.Of(l).running == old(pools).Of(l).running + [next] && handed == old(handed)[l := old(handed)[l] + [next]]
      ensures !taken ==> handed == old(handed)
    {
      var p := pools.Of(l);
      if p.queue == [] || |p.running| >= Workers(l) {
        return false;
      }
      AfterTake(pools, active, l);
      SetBounded(pools, l, p.Take());
      assert Ids(p.queue) == [p.queue[0].id] + Ids(p.queue[1..]);
      pools := pools.Set(l, p.Take());
      handed := handed[l := handed[l] + [p.queue[0].id]];
      return true;
    }

    /** A worker's command is over: only then is its id no longer active. */
    method Finish(l: Lane, i: nat)
      requires Valid() && i < |pools.Of(l).running|
      modifies this`active, this`pools
      ensures Valid()
      ensures active == old(active) - {old(pools).Of(l).running[i]}
      ensures pools == old(pools).Set(l, old(pools).Of(l).Finish(i))
      ensures forall k: Lane :: pools.Of(k).queue == old(pools).Of(k).queue
    {
      AfterFinish(pools, active, l, i);
      SetBounded(pools, l, pools.Of(l).Finish(i));
      active := active - {pools.Of(l).running[i]};
      pools := pools.Set(l, pools.Of(l).Finish(i));
    }

    /** Any number of steps by the workers, in any order. */
    method Drain(steps: nat)
      requires Valid()
      modifies this
      ensures Valid() && active <= old(active)
      ensures forall l: Lane :: |pools.Of(l).queue| <= |old(pools).Of(l).queue|
    {
      for s := 0 to steps
        invariant Valid() && active <= old(active)
        invariant forall l: Lane :: |pools.Of(l).queue| <= |old(pools).Of(l).queue|
      {
        var l: Lane, take: bool, i: nat := *, *, *;
        if take {
          var _ := Take(l);
        } else if i < |pools.Of(l).running| {
          Finish(l, i);
        }
      }
    }

    /** A successful preflight for a command that is not active is enough for the
        submission that follows, whatever the workers do in between. */
    method Admit(c: Command, steps: nat) returns (capacity: bool, accepted: bool)
      requires Valid()
      modifies this
      ensures Valid()
      ensures capacity && c.id !in old(active) ==> accepted && c.id in active
      ensures !capacity ==> !accepted && active == old(active) && pools == old(pools)
    {
      capacity := HasCapacity(c);
      if !capacity {
        return false, false;
      }
      Drain(steps);
      accepted := Submit(c);
    }
  }

  /** Any interleaving of submissions and worker steps, from an empty dispatcher. */
  method AnySchedule(steps: nat) returns (d: CommandDispatcher)
    ensures fresh(d) && d.Valid()
    ensures forall id :: id in d.active <==>
              exists l: Lane :: id in Ids(d.pools.Of(l).queue) || id in d.pools.Of(l).running
  {
    d := new CommandDispatcher();
    for i := 0 to steps
      invariant fresh(d) && d.Valid()
    {
      var c: Command, submit: bool := *, *;
      if submit {
        var _ := d.Submit(c);
      } else {
        d.Drain(1);
      }
    }
    forall id
      ensures id in d.active <==> exists l: Lane :: id in Ids(d.pools.Of(l).queue) || id in d.pools.Of(l).running
    {
      ExactMeansOnce(d.pools, d.active, id);
    }
  }
}

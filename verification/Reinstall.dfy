/** The errors a reinstall can end with, and the receipt each one becomes. */
module Receipts {
  datatype Sentinel = Preflight | CloudInitNotReady | PowerPrecondition | RolledBack | Indeterminate

  /** A Go error: what `errors.Is` can find inside it. `Note` keeps one wrapped
      error, `Both` two of them. */
  datatype GoError = Text | Http(status: int) | Known(kind: Sentinel) | Note(inner: GoError) | Both(first: GoError, second: GoError)

  predicate Is(e: GoError, kind: Sentinel) {
    match e
    case Text => false
    case Http(_) => false
    case Known(k) => k == kind
    case Note(inner) => Is(inner, kind)
    case Both(a, b) => Is(a, kind) || Is(b, kind)
  }

  /** The status of the first HTTP error inside, or -1. */
  function HttpStatus(e: GoError): int {
    match e
    case Text => -1
    case Http(s) => s
    case Known(_) => -1
    case Note(inner) => HttpStatus(inner)
    case Both(a, b) => if HttpStatus(a) != -1 then HttpStatus(a) else HttpStatus(b)
  }

  datatype Code =
    | PreflightRejected | CloudInitRejected | PowerRejected | ReinstallRolledBack | ReinstallIndeterminate
    | Forbidden | Conflict | ActionIndeterminate | ActionRejected | ResultIndeterminate

  function Receipt(e: GoError): Code {
    if Is(e, Preflight) then PreflightRejected
    else if Is(e, CloudInitNotReady) then CloudInitRejected
    else if Is(e, PowerPrecondition) then PowerRejected
    else if Is(e, RolledBack) then ReinstallRolledBack
    else if Is(e, Indeterminate) then ReinstallIndeterminate
    else
      var status := HttpStatus(e);
      if status == -1 then ResultIndeterminate
      else if status == 401 || status == 403 then Forbidden
      else if status == 409 then Conflict
      else if status >= 500 then ActionIndeterminate
      else ActionRejected
  }

  /** Errors that wrap none of the errors a receipt looks for, like the transport, task,
      merge and read-back errors of a reinstall. */
  predicate Foreign(e: GoError) {
    forall kind :: !Is(e, kind)
  }

  function RolledBackAfter(cause: GoError): GoError {
    Both(Known(RolledBack), cause)
  }

  /** A rolled-back error's receipt says so exactly when its cause wraps none of
      the three errors that are looked for first. */
  lemma RolledBackReceipt(cause: GoError)
    ensures Receipt(RolledBackAfter(cause)) == ReinstallRolledBack <==>
            !Is(cause, Preflight) && !Is(cause, CloudInitNotReady) && !Is(cause, PowerPrecondition)
  {
    forall kind ensures Is(RolledBackAfter(cause), kind) <==> kind == RolledBack || Is(cause, kind) {
      assert Is(Known(RolledBack), kind) <==> kind == RolledBack;
    }
  }

  /** Any other error: only a status below 500 lets the failure be taken for settled. */
  lemma ForeignReceipt(e: GoError)
    requires Foreign(e)
    ensures Receipt(e) == ActionIndeterminate || Receipt(e) == ResultIndeterminate <==> HttpStatus(e) == -1 || HttpStatus(e) >= 500
    ensures Receipt(e) == Forbidden <==> HttpStatus(e) == 401 || HttpStatus(e) == 403
    ensures Receipt(e) == Conflict <==> HttpStatus(e) == 409
    ensures Receipt(e) == ResultIndeterminate <==> HttpStatus(e) == -1
  {
  }

  /** A wrapped status is found wherever it is, the first of two first. */
  lemma StatusFound(e: GoError, status: int)
    requires status != -1
    ensures HttpStatus(Note(Note(Http(status)))) == status && HttpStatus(Both(Text, Http(status))) == status
    ensures HttpStatus(Both(Http(status), e)) == status
  {
    assert HttpStatus(Note(Http(status))) == status && HttpStatus(Text) == -1 && HttpStatus(Http(status)) == status;
  }

  /** A cause that hides the class: the receipt reports the cause instead. */
  lemma CauseCanHideRollback()
    ensures Receipt(RolledBackAfter(Note(Known(CloudInitNotReady)))) == CloudInitRejected
  {
  }
}

/** Reinstalling one guest from a template, with compensation. */
module Reinstall {
  import opened Common
  import opened GuestNetwork
  import opened DeliveryProof
  import opened Receipts

  datatype Power = Running | Stopped | Unknown

  /** `image` is the identity of the disk contents; a full clone has its source's. */
  datatype Guest = Guest(node: string, kind: Kind, template: bool, power: Power, image: nat, setup: Setup)

  const NO_SETUP := Setup(map[], Firewall(false, map[]))

  datatype Order = Order(
    target: int, temporary: int, template: int, node: string, nics: seq<Nic>, expected: seq<Delivery>, tools: Tools,
    resources: map<string, string>, cloudInit: map<string, string>, disk: map<string, string>, diskLimits: map<string, string>)

  // ------------------------------------------------------------ Cluster state

  /** `now` differs from `was` only in the configuration and firewall of `vmid`. */
  predicate Reconfigured(was: map<int, Guest>, now: map<int, Guest>, vmid: int) {
    && vmid in was && vmid in now
    && now[vmid] == was[vmid].(setup := now[vmid].setup)
    && now == was[vmid := now[vmid]]
  }

  /** Only the configuration of `vmid` differs. */
  predicate Rewritten(was: map<int, Guest>, now: map<int, Guest>, vmid: int) {
    Reconfigured(was, now, vmid) && now[vmid].setup.firewall == was[vmid].setup.firewall
  }

  lemma RewrittenAgain(a: map<int, Guest>, b: map<int, Guest>, c: map<int, Guest>, vmid: int)
    requires Rewritten(a, b, vmid) && Rewritten(b, c, vmid)
    ensures Rewritten(a, c, vmid)
  {
  }

  /** Only the firewall of `vmid` differs. */
  predicate Refirewalled(was: map<int, Guest>, now: map<int, Guest>, vmid: int) {
    Reconfigured(was, now, vmid) && now[vmid].setup.config == was[vmid].setup.config
  }

  lemma RefirewalledAgain(a: map<int, Guest>, b: map<int, Guest>, c: map<int, Guest>, vmid: int)
    requires Refirewalled(a, b, vmid) && Refirewalled(b, c, vmid)
    ensures Refirewalled(a, c, vmid)
  {
  }

  lemma ReconfiguredAgain(a: map<int, Guest>, b: map<int, Guest>, c: map<int, Guest>, vmid: int)
    requires Reconfigured(a, b, vmid) && Reconfigured(b, c, vmid)
    ensures Reconfigured(a, c, vmid)
  {
  }

  predicate Holds(guests: map<int, Guest>, vmid: int, image: nat) {
    vmid in guests && guests[vmid].image == image
  }

  predicate HoldsStill(guests: map<int, Guest>, vmid: int, image: nat) {
    Holds(guests, vmid, image) && guests[vmid].power == Stopped
  }

  lemma SameGuests(a: map<int, Guest>, b: map<int, Guest>, t: int, u: int)
    requires a - {t, u} == b - {t, u}
    requires t in a && t in b && a[t] == b[t] && u !in a && u !in b
    ensures a == b
  {
    forall v | v in a ensures v in b && a[v] == b[v] {
      assert v != t ==> v in a - {t, u};
    }
    forall v | v in b ensures v in a {
      assert v != t ==> v in b - {t, u};
    }
  }

  /** Clean, recoverable and unrecoverable ends all mean that cloud-init is done. */
  predicate Settled(exitCode: int) {
    exitCode == 0 || exitCode == 2 || exitCode == 1
  }

  /** How a requested change fares: anything may happen, it is done, or it is refused. */
  datatype Luck = Wild | Clean | Refused

  function Of(clean: bool): Luck {
    if clean then Clean else Wild
  }

  /** The one step of an otherwise fault-free run that is refused. */
  datatype Stage = Nowhere | AtShutdown | AtBackup | AtRemoval

  function At(clean: bool, here: bool): Luck {
    if !clean then Wild else if here then Refused else Clean
  }

  datatype Reply = Fine | Failed(error: GoError)

  datatype Action = Start | Stop | Shutdown

  function Wanted(a: Action): Power {
    if a == Start then Running else Stopped
  }

  /** One run of the reinstall against the cluster. Nobody else changes the target
      or the temporary guest during it. A `clean` call meets no fault. */
  class Saga {
    const o: Order
    var guests: map<int, Guest>
    /** The cluster before the run. */
    ghost const was: map<int, Guest>
    /** How many changes were requested. */
    ghost var sent: nat
    /** The interfaces whose signed settings were written, in order. */
    ghost var written: seq<string>
    /** The replacement has passed its readiness proof. */
    ghost var ready: bool
    /** Compensation has begun to put the original back. */
    ghost var restoring: bool
    /** Cloud-init was seen to have finished in the replacement. */
    ghost var settled: bool
    /** The signed timezone was set, after that, and read back. */
    ghost var zoned: bool

    ghost predicate Safe()
      reads this
    {
      && o.target != o.temporary
      && guests - {o.target, o.temporary} == was - {o.target, o.temporary}
      && (sent == 0 ==> guests == was)
      && (ready || o.target !in was || Kept())
      && (restoring ==> RestoredSafely())
    }

    /** The original's contents are under the target's or the temporary number. */
    ghost predicate Kept()
      reads this
    {
      && o.target in was
      && (Holds(guests, o.target, was[o.target].image) || Holds(guests, o.temporary, was[o.target].image))
    }

    ghost predicate TargetProven()
      reads this
    {
      o.target in guests && Proven(guests[o.target].setup, o.expected, o.tools)
    }

    /** A restored guest runs, or loses its compensation clone, only once proven. */
    ghost predicate RestoredSafely()
      reads this
    {
      && (o.target in guests && guests[o.target].power == Running ==> TargetProven())
      && (o.temporary !in guests ==> TargetProven())
    }

    /** What command validation demands of the signed networks. */
    ghost predicate Signed()
    {
      && ValidNics(o.nics, o.expected) && Distinct(Names(o.expected))
      && (forall e :: e in o.expected ==> SignedAddresses(e.cidrs, o.tools.canonical))
      && NetworkFree(o.resources) && NetworkFree(o.cloudInit) && NetworkFree(o.disk) && NetworkFree(o.diskLimits)
    }

    constructor (order: Order, cluster: map<int, Guest>)
      requires order.target != order.temporary
      ensures Safe() && o == order && guests == was == cluster
      ensures sent == 0 && written == [] && !ready && !restoring && !settled && !zoned
    {
      o, guests, was := order, cluster, cluster;
      sent, written, ready, restoring, settled, zoned := 0, [], false, false, false, false;
    }

    /** An error that wraps none of the errors a receipt looks for. */
    method AnyError() returns (e: GoError)
      ensures Foreign(e)
    {
      var status: int := *;
      e := if status == 0 then Text else Http(status);
    }

    /** Something outside the model answers. */
    method Ask(clean: bool) returns (ok: bool)
      ensures clean ==> ok
    {
      ok := *;
      ok := ok || clean;
    }

    /** A change PVE has settled: applied or not, reported or not; or the process died. */
    method Submit(next: map<int, Guest>, luck: Luck) returns (f: Fate<Reply>)
      modifies this`guests, this`sent
      ensures guests == old(guests) || guests == next
      ensures f == Alive(Fine) ==> guests == next
      ensures f.Alive? && f.value.Failed? ==> Foreign(f.value.error)
      ensures sent == old(sent) + 1
      ensures luck == Clean ==> f == Alive(Fine)
      ensures luck == Refused ==> f.Alive? && f.value.Failed? && guests == old(guests)
    {
      sent := sent + 1;
      var applied: bool, reported: bool, died: bool := *, *, *;
      if luck == Clean || (luck == Wild && (applied || reported)) {
        guests := next;
      }
      var e := AnyError();
      f := if luck == Clean then Alive(Fine)
      else if luck == Refused then Alive(Failed(e))
      else if died then Died
      else Alive(if reported then Fine else Failed(e));
    }

    method Inventory(clean: bool) returns (snapshot: Option<map<int, Guest>>)
      ensures snapshot.Some? ==> snapshot.value == guests
      ensures clean ==> snapshot.Some?
    {
      var fails: bool := *;
      snapshot := if fails && !clean then None else Some(guests);
    }

    method Read(vmid: int, clean: bool) returns (g: Option<Guest>)
      ensures g.Some? ==> vmid in guests && guests[vmid] == g.value
      ensures clean && vmid in guests ==> g.Some?
    {
      var fails: bool := *;
      g := if (fails && !clean) || vmid !in guests then None else Some(guests[vmid]);
    }

    /** A full clone: the source's contents, stopped, everything else PVE's choice, which
        in a clean call is `setup`. */
    method Clone(source: int, dest: int, setup: Setup, luck: Luck) returns (f: Fate<Reply>)
      modifies this`guests, this`sent
      ensures sent == old(sent) + 1
      ensures f.Alive? && f.value.Failed? ==> Foreign(f.value.error)
      ensures guests == old(guests) ||
              (dest !in old(guests) && source in old(guests) && dest in guests && guests == old(guests)[dest := guests[dest]]
               && guests[dest].image == old(guests)[source].image && guests[dest].power == Stopped)
      ensures f == Alive(Fine) ==> dest !in old(guests) && dest in guests
      ensures luck == Clean && source in old(guests) && dest !in old(guests) ==> f == Alive(Fine) && guests[dest].setup == setup
      ensures luck == Refused ==> f.Alive? && f.value.Failed? && guests == old(guests)
      ensures luck != Wild ==> f.Alive?
    {
      if source !in guests || dest in guests {
        sent := sent + 1;
        var e := AnyError();
        return Alive(Failed(e));
      }
      var config: map<string, string>, firewall: Firewall := *, *;
      var chosen := if luck == Clean then setup else Setup(config, firewall);
      f := Submit(guests[dest := Guest(o.node, Qemu, false, Stopped, guests[source].image, chosen)], luck);
    }

    /** PVE does not delete a running guest. */
    method Delete(vmid: int, luck: Luck) returns (f: Fate<Reply>)
      modifies this`guests, this`sent
      ensures sent == old(sent) + 1
      ensures f.Alive? && f.value.Failed? ==> Foreign(f.value.error)
      ensures guests == old(guests) || guests == old(guests) - {vmid}
      ensures f == Alive(Fine) ==> guests == old(guests) - {vmid}
      ensures vmid in old(guests) && old(guests)[vmid].power == Running ==> guests == old(guests)
      ensures luck == Clean ==> f.Alive? && (f == Alive(Fine) <==> !(vmid in old(guests) && old(guests)[vmid].power == Running))
      ensures luck == Refused ==> f.Alive? && f.value.Failed? && guests == old(guests)
    {
      if vmid in guests && guests[vmid].power == Running {
        sent := sent + 1;
        var e := AnyError();
        return Alive(Failed(e));
      }
      f := Submit(guests - {vmid}, luck);
    }

    method SetPower(a: Action, luck: Luck) returns (f: Fate<Reply>)
      modifies this`guests, this`sent
      ensures sent == old(sent) + 1
      ensures f.Alive? && f.value.Failed? ==> Foreign(f.value.error)
      ensures guests == old(guests) || (o.target in old(guests)
              && guests == old(guests)[o.target := old(guests)[o.target].(power := Wanted(a))])
      ensures f == Alive(Fine) ==> o.target in guests && guests[o.target].power == Wanted(a)
      ensures luck == Clean && o.target in old(guests) ==> f == Alive(Fine)
      ensures luck == Refused ==> f.Alive? && f.value.Failed? && guests == old(guests)
    {
      if o.target !in guests {
        sent := sent + 1;
        var e := AnyError();
        return Alive(Failed(e));
      }
      f := Submit(guests[o.target := guests[o.target].(power := Wanted(a))], luck);
    }

    /** Bring the target to a power state unless a read shows it there already. */
    method EnsurePower(a: Action, luck: Luck) returns (f: Fate<Reply>)
      requires Safe() && (restoring && a == Start ==> TargetProven())
      modifies this`guests, this`sent
      ensures Safe() && sent >= old(sent)
      ensures f.Alive? && f.value.Failed? ==> Foreign(f.value.error)
      ensures guests == old(guests) || (o.target in old(guests)
              && guests == old(guests)[o.target := old(guests)[o.target].(power := Wanted(a))])
      ensures f == Alive(Fine) ==> o.target in guests && guests[o.target].power == Wanted(a)
      ensures old(TargetProven()) ==> TargetProven()
      ensures luck == Clean && o.target in old(guests) ==> f == Alive(Fine)
      ensures luck == Refused && o.target in old(guests) ==> f.Alive? && guests == old(guests)
      ensures luck == Refused && o.target in old(guests) ==> (f == Alive(Fine) <==> old(guests)[o.target].power == Wanted(a))
    {
      var current := Read(o.target, luck != Wild);
      if current == None {
        var e := AnyError();
        return Alive(Failed(e));
      }
      if current.value.power == Wanted(a) {
        return Alive(Fine);
      }
      f := SetPower(a, luck);
      if f.Alive? && f.value.Failed? {
        var alreadyDesired := Ask(false);
        var observed := Read(o.target, false);
        if alreadyDesired && observed.Some? && observed.value.power == Wanted(a) {
          return Alive(Fine);
        }
      }
    }

    // ----------------------------------------------------------------- Networks

    /** Any change of the target's configuration or firewall. */
    method Configure(g: Guest, clean: bool) returns (f: Fate<Reply>)
      requires Safe() && o.target in guests
      requires g == guests[o.target].(setup := g.setup)
      requires restoring ==> g.power == Stopped && o.temporary in guests
      modifies this`guests, this`sent
      ensures Safe() && sent == old(sent) + 1
      ensures f.Alive? && f.value.Failed? ==> Foreign(f.value.error)
      ensures guests == old(guests) || guests == old(guests)[o.target := g]
      ensures f == Alive(Fine) ==> guests == old(guests)[o.target := g]
      ensures clean ==> f == Alive(Fine)
    {
      f := Submit(guests[o.target := g], Of(clean));
    }

    /** The configuration of the target. */
    ghost function Config(): map<string, string>
      requires o.target in guests
      reads this
    {
      guests[o.target].setup.config
    }

    /** Read, merge and write back one interface's signed settings. */
    method SetNetwork(n: Nic, clean: bool) returns (f: Fate<Reply>)
      requires Safe() && Admissible(n.settings) && o.target in guests
      requires restoring ==> guests[o.target].power == Stopped && o.temporary in guests
      modifies this`guests, this`sent, this`written
      ensures Safe() && sent >= old(sent)
      ensures f.Alive? && f.value.Failed? ==> Foreign(f.value.error)
      ensures Rewritten(old(guests), guests, o.target)
      ensures f == Alive(Fine) ==>
                Applied(old(Config()), Config(), [n])
      ensures SameElsewhere(old(Config()), Config(), n.iface)
      ensures written == if f == Alive(Fine) then old(written) + [n.iface] else old(written)
      ensures clean ==> f.Alive? && (f == Alive(Fine) <==> Merges(old(Config()), [n]))
    {
      var current := Read(o.target, clean);
      if current == None {
        var e := AnyError();
        return Alive(Failed(e));
      }
      var merged := MergeNic(current.value.setup.config, n);
      if merged.Err? {
        return Alive(Failed(Text));
      }
      f := Configure(current.value.(setup := current.value.setup.(config := merged.value)), clean);
      if f == Alive(Fine) {
        written := written + [n.iface];
      }
    }

    /** Reapply every signed interface; the target stays stopped. */
    method SetNetworks(clean: bool) returns (f: Fate<Reply>)
      requires Safe() && PlainNics(o.nics) && o.target in guests
      requires restoring ==> guests[o.target].power == Stopped && o.temporary in guests
      modifies this`guests, this`sent, this`written
      ensures Safe() && sent >= old(sent)
      ensures f.Alive? && f.value.Failed? ==> Foreign(f.value.error)
      ensures Rewritten(old(guests), guests, o.target)
      ensures f == Alive(Fine) ==> written == old(written) + NicNames(o.nics)
      ensures f == Alive(Fine) && Distinct(NicNames(o.nics)) ==>
                Applied(old(Config()), Config(), o.nics)
      ensures clean ==> f.Alive?
      ensures clean && Distinct(NicNames(o.nics)) ==> (f == Alive(Fine) <==> Merges(old(Config()), o.nics))
      ensures SameSettings(old(Config()), Config())
    {
      assert o.nics[..|o.nics|] == o.nics && o.nics[..0] == [];
      f := ReapplyAll(clean, guests);
    }

    method ReapplyAll(clean: bool, ghost first: map<int, Guest>) returns (f: Fate<Reply>)
      requires Safe() && PlainNics(o.nics) && o.target in guests && Reapplying(first, 0)
      requires restoring ==> guests[o.target].power == Stopped && o.temporary in guests
      modifies this`guests, this`sent, this`written
      ensures Safe() && sent >= old(sent)
      ensures f.Alive? && f.value.Failed? ==> Foreign(f.value.error)
      ensures Rewritten(first, guests, o.target) && SameSettings(first[o.target].setup.config, Config())
      ensures f == Alive(Fine) ==> Reapplying(first, |o.nics|) && written == old(written) + NicNames(o.nics)
      ensures clean ==> f.Alive?
      ensures clean && Distinct(NicNames(o.nics)) ==> (f == Alive(Fine) <==> Merges(first[o.target].setup.config, o.nics))
    {
      for i := 0 to |o.nics|
        invariant Safe() && sent >= old(sent)
        invariant Reapplying(first, i)
        invariant written == old(written) + NicNames(o.nics)[..i]
        invariant clean && Distinct(NicNames(o.nics)) ==> Merges(first[o.target].setup.config, o.nics[..i])
      {
        f := ReapplyNext(i, clean, first);
        if f != Alive(Fine) {
          return;
        }
      }
      assert o.nics[..|o.nics|] == o.nics;
      return Alive(Fine);
    }

    /** The first interfaces have been reapplied to the target as it was in `first`. */
    ghost predicate Reapplying(first: map<int, Guest>, i: nat)
      requires i <= |o.nics|
      reads this
    {
      && Rewritten(first, guests, o.target)
      && SameSettings(first[o.target].setup.config, Config())
      && (Distinct(NicNames(o.nics)) ==> Reapplied(first[o.target].setup.config, Config(), o.nics[..i], o.nics[i..]))
    }

    /** One more interface, after the ones before it. */
    method ReapplyNext(i: nat, clean: bool, ghost first: map<int, Guest>) returns (f: Fate<Reply>)
      requires Safe() && PlainNics(o.nics) && o.target in guests && i < |o.nics| && Reapplying(first, i)
      requires restoring ==> guests[o.target].power == Stopped && o.temporary in guests
      modifies this`guests, this`sent, this`written
      ensures Safe() && sent >= old(sent)
      ensures f.Alive? && f.value.Failed? ==> Foreign(f.value.error)
      ensures Rewritten(first, guests, o.target) && SameSettings(first[o.target].setup.config, Config())
      ensures f == Alive(Fine) ==> Reapplying(first, i + 1) && written == old(written) + [o.nics[i].iface]
      ensures clean ==> f.Alive?
      ensures clean && Distinct(NicNames(o.nics)) && Merges(first[o.target].setup.config, o.nics[..i]) ==>
                if f == Alive(Fine) then Merges(first[o.target].setup.config, o.nics[..i + 1])
                else !Merges(first[o.target].setup.config, o.nics)
    {
      MergesSnoc(first[o.target].setup.config, o.nics, i);
      assert o.nics[i] in o.nics && o.nics[i] in o.nics[i..];
      ghost var before := guests;
      ghost var c, config := first[o.target].setup.config, Config();
      f := SetNetwork(o.nics[i], clean);
      RewrittenAgain(first, before, guests, o.target);
      NicKeepsSettings(config, Config(), o.nics[i].iface);
      SameSettingsAgain(c, config, Config());
      if Distinct(NicNames(o.nics)) {
        NicMergesAlike(c, config, o.nics[i]);
        if f == Alive(Fine) {
          ReappliedNext(c, config, Config(), o.nics, i);
        }
      }
    }

    /** Read the target back and prove every signed interface of it. */
    method VerifyNetworks(clean: bool) returns (ok: bool)
      requires forall e :: e in o.expected ==> SignedAddresses(e.cidrs, o.tools.canonical)
      ensures ok ==> TargetProven()
      ensures clean && TargetProven() ==> ok
    {
      var current := Read(o.target, clean);
      if current == None {
        return false;
      }
      var g := current.value.setup;
      for i := 0 to |o.expected|
        invariant Proven(g, o.expected[..i], o.tools)
      {
        var e := o.expected[i];
        assert o.expected[..i + 1] == o.expected[..i] + [o.expected[i]];
        var proven := VerifyNic(g, e, clean);
        if !proven {
          return false;
        }
      }
      assert o.expected[..|o.expected|] == o.expected;
      return true;
    }

    /** One signed interface of the target as it was read. */
    method VerifyNic(g: Setup, e: Delivery, clean: bool) returns (ok: bool)
      requires SignedAddresses(e.cidrs, o.tools.canonical) && o.target in guests && guests[o.target].setup == g
      ensures ok ==> NicProven(g, e, o.tools)
      ensures clean && NicProven(g, e, o.tools) ==> ok
    {
      var text := ConfigString(g.config, e.iface);
      if text == None {
        return false;
      }
      ok := CheckNetwork(g.config, text.value, e, o.tools.format);
      if ok {
        ok := VerifyFirewall(e, clean);
      }
    }

    /** An enforced firewall must hold exactly the signed addresses; otherwise it must
        be off. Cluster and node switches can only refuse more. */
    method VerifyFirewall(e: Delivery, clean: bool) returns (ok: bool)
      requires SignedAddresses(e.cidrs, o.tools.canonical)
      ensures ok ==> o.target in guests && FirewallProven(guests[o.target].setup.firewall, e, o.tools.canonical)
      ensures clean && o.target in guests && FirewallProven(guests[o.target].setup.firewall, e, o.tools.canonical) ==> ok
    {
      var current := Read(o.target, clean);
      if current == None {
        return false;
      }
      var f := current.value.setup.firewall;
      if !e.firewall {
        return !f.enable;
      }
      var outer := Ask(clean);
      if !outer || !f.enable || SetName(e.iface) !in f.sets {
        return false;
      }
      ok := VerifyFilterSet(f.sets[SetName(e.iface)], e.cidrs, o.tools.canonical);
    }

    // ----------------------------------------------------------------- Firewall

    /** While the firewall is rebuilt it is as it was, off, or complete. */
    ghost predicate Enforced(original: Firewall)
      reads this
    {
      && o.target in guests
      && var f := guests[o.target].setup.firewall;
      f == original || !f.enable || FiltersReady(f, o.expected)
    }

    method SetFirewall(f: Firewall, clean: bool) returns (r: Fate<Reply>)
      requires Safe() && !restoring && o.target in guests
      modifies this`guests, this`sent
      ensures Safe() && sent == old(sent) + 1
      ensures r.Alive? && r.value.Failed? ==> Foreign(r.value.error)
      ensures Refirewalled(old(guests), guests, o.target)
      ensures guests[o.target].setup.firewall == f || guests[o.target].setup.firewall == old(guests)[o.target].setup.firewall
      ensures r == Alive(Fine) ==> guests[o.target].setup.firewall == f
      ensures clean ==> r == Alive(Fine)
    {
      var g := guests[o.target];
      r := Configure(g.(setup := g.setup.(firewall := f)), clean);
    }

    /** Create one interface's address set, which must not exist, and fill it. */
    method BuildFilter(i: nat, clean: bool) returns (r: Fate<Reply>)
      requires Safe() && !restoring && o.target in guests && !guests[o.target].setup.firewall.enable
      requires i < |o.expected| && FiltersReady(guests[o.target].setup.firewall, o.expected[..i]) && NewIface(o.expected, i)
      modifies this`guests, this`sent
      ensures Safe() && sent >= old(sent)
      ensures r.Alive? && r.value.Failed? ==> Foreign(r.value.error)
      ensures Refirewalled(old(guests), guests, o.target) && !guests[o.target].setup.firewall.enable
      ensures r == Alive(Fine) ==> FiltersReady(guests[o.target].setup.firewall, o.expected[..i + 1])
      ensures r == Alive(Fine) ==>
                guests[o.target].setup.firewall.sets.Keys == old(guests)[o.target].setup.firewall.sets.Keys + {SetName(o.expected[i].iface)}
      ensures clean ==> r.Alive? && (r == Alive(Fine) <==> SetName(o.expected[i].iface) !in old(guests)[o.target].setup.firewall.sets)
    {
      var e := o.expected[i];
      var name := SetName(e.iface);
      var f := guests[o.target].setup.firewall;
      if name in f.sets {
        sent := sent + 1;
        return Alive(Failed(Text));
      }
      r := SetFirewall(f.(sets := f.sets[name := []]), clean);
      assert Entries(e.cidrs[..0]) == [];
      for j := 0 to |e.cidrs|
        invariant Safe() && sent >= old(sent)
        invariant r.Alive? && r.value.Failed? ==> Foreign(r.value.error)
        invariant Refirewalled(old(guests), guests, o.target) && !guests[o.target].setup.firewall.enable
        invariant r == Alive(Fine) ==> guests[o.target].setup.firewall == f.(sets := f.sets[name := Entries(e.cidrs[..j])])
        invariant clean ==> r == Alive(Fine)
      {
        if r != Alive(Fine) {
          return;
        }
        var g := guests[o.target].setup.firewall;
        assert Entries(e.cidrs[..j + 1]) == Entries(e.cidrs[..j]) + [Entry(e.cidrs[j], false)];
        r := SetFirewall(g.(sets := g.sets[name := g.sets[name] + [Entry(e.cidrs[j], false)]]), clean);
      }
      assert e.cidrs[..|e.cidrs|] == e.cidrs;
      FilterAdded(f, o.expected, i);
    }

    /** Build every interface's address set while nothing is enforced. */
    method BuildFilters(clean: bool) returns (r: Fate<Reply>)
      requires Safe() && !restoring && o.target in guests && !guests[o.target].setup.firewall.enable
      requires Distinct(Names(o.expected))
      modifies this`guests, this`sent
      ensures Safe() && sent >= old(sent)
      ensures r.Alive? && r.value.Failed? ==> Foreign(r.value.error)
      ensures Refirewalled(old(guests), guests, o.target) && !guests[o.target].setup.firewall.enable
      ensures r == Alive(Fine) ==> FiltersReady(guests[o.target].setup.firewall, o.expected)
      ensures clean ==> r.Alive? && (r == Alive(Fine) <==> SetsAbsent(old(guests)[o.target].setup.firewall, o.expected))
    {
      NewIfaces(o.expected);
      r := Alive(Fine);
      ghost var f := guests[o.target].setup.firewall;
      for i := 0 to |o.expected|
        invariant Safe() && sent >= old(sent) && r == Alive(Fine)
        invariant Refirewalled(old(guests), guests, o.target) && !guests[o.target].setup.firewall.enable
        invariant FiltersReady(guests[o.target].setup.firewall, o.expected[..i])
        invariant SetsBuilt(f, guests[o.target].setup.firewall, o.expected[..i])
        invariant clean ==> SetsAbsent(f, o.expected[..i])
      {
        ghost var before := guests;
        r := BuildFilter(i, clean);
        RefirewalledAgain(old(guests), before, guests, o.target);
        NextSet(f, before[o.target].setup.firewall, o.expected, i);
        if r != Alive(Fine) {
          return;
        }
      }
      assert o.expected[..|o.expected|] == o.expected;
    }

    /** Rebuild the replacement's firewall: switched on only once every set is exact. */
    method RestoreFirewall(wellFormed: Delivery -> bool, clean: bool) returns (r: Fate<Reply>)
      requires Safe() && !restoring && o.target in guests
      requires ValidDelivery(o.expected, wellFormed) && Signed()
      modifies this`guests, this`sent
      ensures Safe() && sent >= old(sent)
      ensures r.Alive? && r.value.Failed? ==> Foreign(r.value.error)
      ensures Refirewalled(old(guests), guests, o.target) && Enforced(old(guests)[o.target].setup.firewall)
      ensures r == Alive(Fine) ==> Firewalled(guests[o.target].setup.firewall, o.expected, o.tools.canonical)
      ensures clean ==> r.Alive? && (r == Alive(Fine) <==> Buildable(old(guests)[o.target].setup.firewall))
    {
      ghost var was := guests[o.target].setup.firewall;
      r := SetFirewall(guests[o.target].setup.firewall.(enable := false), clean);
      if r != Alive(Fine) || !o.expected[0].firewall {
        return;
      }
      r := BuildFilters(clean);
      if r != Alive(Fine) {
        return;
      }
      var f := guests[o.target].setup.firewall;
      FiltersIgnoreSwitch(f, true, o.expected);
      ReadyFiltersProve(f.(enable := true), o.expected, o.tools.canonical);
      r := SetFirewall(f.(enable := true), clean);
    }

    /** The signed firewall can be built on this one. */
    ghost predicate Buildable(f: Firewall)
    {
      o.expected != [] && o.expected[0].firewall ==> SetsAbsent(f, o.expected)
    }

    // ------------------------------------------------------------ Compensation

    /** The original is still in place, with at most its power state changed. */
    ghost predicate InPlace()
      reads this
    {
      && !ready && !restoring
      && o.target in was && o.target in guests && o.temporary !in was
      && guests[o.target] == was[o.target].(power := guests[o.target].power)
    }

    /** The error a run ends with matches what it did to the cluster. */
    ghost predicate Accounts(e: GoError)
      reads this
    {
      match Receipt(e)
      case PreflightRejected => sent == 0 && guests == was
      case ReinstallRolledBack =>
        && o.target in was && o.temporary !in guests
        && Holds(guests, o.target, was[o.target].image)
        && guests[o.target].power == was[o.target].power
        && (guests == was || TargetProven())
      case ReinstallIndeterminate => true
      case _ => false
    }

    /** `running` is the power state the original had. */
    ghost predicate Was(running: bool)
    {
      o.target in was && was[o.target].power == (if running then Running else Stopped)
    }

    method RestorePower(running: bool, clean: bool) returns (f: Fate<Reply>)
      requires Safe() && Was(running)
      requires restoring ==> TargetProven()
      modifies this`guests, this`sent
      ensures Safe() && sent >= old(sent)
      ensures f.Alive? && f.value.Failed? ==> Foreign(f.value.error)
      ensures guests == old(guests) || (o.target in old(guests)
              && guests == old(guests)[o.target := old(guests)[o.target].(power := was[o.target].power)])
      ensures f == Alive(Fine) ==> o.target in guests && guests[o.target].power == was[o.target].power
      ensures old(TargetProven()) ==> TargetProven()
      ensures clean && o.target in old(guests) ==> f == Alive(Fine)
    {
      f := EnsurePower(if running then Start else Stop, Of(clean));
    }

    method CleanupTemporary(clean: bool) returns (f: Fate<Reply>)
      requires Safe() && InPlace()
      modifies this`guests, this`sent
      ensures Safe() && InPlace() && sent >= old(sent)
      ensures guests[o.target] == old(guests)[o.target]
      ensures f == Alive(Fine) ==> o.temporary !in guests
      ensures clean && (o.temporary in old(guests) ==> old(guests)[o.temporary].power == Stopped) ==> f == Alive(Fine)
    {
      var present := Inventory(clean);
      if present == None {
        return Alive(Failed(Text));
      }
      if o.temporary !in present.value {
        return Alive(Fine);
      }
      f := Delete(o.temporary, Of(clean));
    }

    /** Undo everything while the original has not been deleted. */
    method RollbackEarly(running: bool, cause: GoError, clean: bool) returns (f: Fate<GoError>)
      requires Safe() && InPlace() && Was(running) && Foreign(cause)
      modifies this`guests, this`sent
      ensures Safe()
      ensures f.Alive? ==> Accounts(f.value)
      ensures f.Alive? ==> (Receipt(f.value) == ReinstallRolledBack && guests == was) || Receipt(f.value) == ReinstallIndeterminate
      ensures clean && (o.temporary in old(guests) ==> old(guests)[o.temporary].power == Stopped) ==>
                f.Alive? && Receipt(f.value) == ReinstallRolledBack
    {
      var cleaned :- CleanupTemporary(clean);
      if cleaned != Fine {
        return Alive(Note(Known(Indeterminate)));
      }
      var powered :- RestorePower(running, clean);
      if powered != Fine {
        return Alive(Note(Known(Indeterminate)));
      }
      SameGuests(guests, was, o.target, o.temporary);
      RolledBackReceipt(cause);
      return Alive(RolledBackAfter(cause));
    }

    /** The target holds the restored original, proven, and the clone is still there. */
    ghost predicate Restored()
      reads this
    {
      && !ready && restoring && TargetProven() && o.target in was
      && Holds(guests, o.target, was[o.target].image) && HoldsStill(guests, o.temporary, was[o.target].image)
    }

    /** Every interface can be merged into the cloned setup and is then as signed. */
    ghost predicate Restorable(cloned: Setup)
    {
      && Merges(cloned.config, o.nics) && Deliverable(cloned.config, o.nics, o.expected)
      && Firewalled(cloned.firewall, o.expected, o.tools.canonical)
    }

    /** Clone the original back and prove its signed networks; it is not started. Every
        listed interface is written; so is every expected one, if and only if none is
        listed twice. */
    method RestoreOriginal(cloned: Setup, clean: bool) returns (f: Fate<Reply>)
      requires Safe() && !ready && !restoring && o.target in was && sent > 0
      requires o.target !in guests && HoldsStill(guests, o.temporary, was[o.target].image) && Signed()
      modifies this`guests, this`sent, this`written, this`restoring
      ensures Safe() && sent > 0 && restoring
      ensures f == Alive(Fine) ==> Restored() && guests[o.target].power == Stopped
      ensures f == Alive(Fine) ==> written == old(written) + NicNames(o.nics)
      ensures f == Alive(Fine) ==> (AllNamed(o.expected, written[|old(written)|..]) <==> Distinct(NicNames(o.nics)))
      ensures clean ==> f.Alive? && o.target in guests
      ensures clean && Distinct(NicNames(o.nics)) ==> (f == Alive(Fine) <==> Restorable(cloned))
    {
      NamesCovered(o.nics, o.expected);
      f := CloneBack(cloned, clean);
      if f == Alive(Fine) {
        assert written[|old(written)|..] == NicNames(o.nics);
      }
    }

    method CloneBack(cloned: Setup, clean: bool) returns (f: Fate<Reply>)
      requires Safe() && !ready && !restoring && o.target in was && sent > 0
      requires o.target !in guests && HoldsStill(guests, o.temporary, was[o.target].image) && Signed()
      modifies this`guests, this`sent, this`written, this`restoring
      ensures Safe() && sent > 0 && restoring
      ensures f == Alive(Fine) ==> Restored() && guests[o.target].power == Stopped
      ensures f == Alive(Fine) ==> written == old(written) + NicNames(o.nics)
      ensures clean ==> f.Alive? && o.target in guests
      ensures clean && Distinct(NicNames(o.nics)) ==> (f == Alive(Fine) <==> Restorable(cloned))
    {
      restoring := true;
      f := Clone(o.temporary, o.target, cloned, Of(clean));
      if f == Alive(Fine) {
        f := ReapplyAndProve(clean);
      }
    }

    /** Reapply the signed interfaces to the cloned guest and read them back. */
    method ReapplyAndProve(clean: bool) returns (f: Fate<Reply>)
      requires Safe() && Signed() && restoring && o.target in guests && o.temporary in guests && guests[o.target].power == Stopped
      modifies this`guests, this`sent, this`written
      ensures Safe() && sent >= old(sent) && Reconfigured(old(guests), guests, o.target)
      ensures f == Alive(Fine) ==> TargetProven() && written == old(written) + NicNames(o.nics)
      ensures clean ==> f.Alive?
      ensures clean && Distinct(NicNames(o.nics)) ==> (f == Alive(Fine) <==> Restorable(old(guests)[o.target].setup))
    {
      ghost var cloned := guests[o.target].setup;
      f := SetNetworks(clean);
      if f == Alive(Fine) {
        if Distinct(NicNames(o.nics)) {
          ReappliedGuestProven(cloned.config, guests[o.target].setup, o.nics, o.expected, o.tools);
        }
        var proven := VerifyNetworks(clean);
        f := Alive(if proven then Fine else Failed(Text));
      }
    }

    method FinishRestore(running: bool, clean: bool) returns (f: Fate<Reply>)
      requires Safe() && Restored() && Was(running) && sent > 0
      modifies this`guests, this`sent
      ensures Safe() && sent > 0
      ensures f == Alive(Fine) ==> o.temporary !in guests && TargetProven() && Holds(guests, o.target, was[o.target].image)
      ensures f == Alive(Fine) ==> guests[o.target].power == was[o.target].power
      ensures o.target in guests && guests[o.target].setup == old(guests)[o.target].setup
      ensures clean ==> f == Alive(Fine)
    {
      f := RestorePower(running, clean);
      if f == Alive(Fine) {
        f := Delete(o.temporary, Of(clean));
      }
    }

    /** Remove what stands in the target's place. */
    method ClearTarget(clean: bool) returns (f: Fate<Reply>)
      requires Safe() && !ready && !restoring && o.target in was && sent > 0
      requires HoldsStill(guests, o.temporary, was[o.target].image)
      modifies this`guests, this`sent
      ensures Safe() && sent > 0 && HoldsStill(guests, o.temporary, was[o.target].image)
      ensures f == Alive(Fine) ==> o.target !in guests
      ensures clean ==> f == Alive(Fine)
    {
      var present := Inventory(clean);
      if present == None {
        return Alive(Failed(Text));
      }
      if o.target !in present.value {
        return Alive(Fine);
      }
      var stopped := SetPower(Stop, Of(clean));
      if stopped.Died? {
        return Died;
      }
      f := Delete(o.target, Of(clean));
    }

    /** The original is back: contents, power and signed networks, and no clone left. */
    ghost predicate PutBack()
      reads this
    {
      && o.target in was && o.temporary !in guests && Holds(guests, o.target, was[o.target].image)
      && guests[o.target].power == was[o.target].power && TargetProven()
    }

    method PutBackSteps(running: bool, cloned: Setup, clean: bool) returns (f: Fate<Reply>)
      requires Safe() && !ready && !restoring && Was(running) && sent > 0
      requires HoldsStill(guests, o.temporary, was[o.target].image) && Signed()
      modifies this`guests, this`sent, this`written, this`restoring
      ensures Safe() && sent > 0
      ensures f == Alive(Fine) ==> PutBack()
      ensures clean ==> f.Alive?
      ensures clean && Distinct(NicNames(o.nics)) ==> (f == Alive(Fine) <==> Restorable(cloned))
    {
      f := ClearTarget(clean);
      if f == Alive(Fine) {
        f := RestoreOriginal(cloned, clean);
      }
      if f == Alive(Fine) {
        f := FinishRestore(running, clean);
      }
    }

    /** Put the original back from its compensation clone, whose own setup PVE chooses
        anew. Without faults it ends rolled back if and only if every signed interface
        can be merged into that setup and is then accepted. */
    method Compensate(running: bool, cause: GoError, cloned: Setup, clean: bool) returns (f: Fate<GoError>)
      requires Safe() && !ready && !restoring && Was(running) && Foreign(cause) && sent > 0
      requires HoldsStill(guests, o.temporary, was[o.target].image) && Signed()
      modifies this`guests, this`sent, this`written, this`restoring
      ensures Safe()
      ensures f.Alive? ==> Accounts(f.value)
      ensures clean && Distinct(NicNames(o.nics)) ==>
                f.Alive? && (Receipt(f.value) == ReinstallRolledBack <==> Restorable(cloned))
    {
      var step := PutBackSteps(running, cloned, clean);
      RolledBackReceipt(cause);
      f := if step.Died? then Died else Alive(if step.value == Fine then RolledBackAfter(cause) else Note(Known(Indeterminate)));
    }

    // --------------------------------------------------------- The replacement

    /** The original is safe in the compensation clone. */
    ghost predicate Backed()
      reads this
    {
      && !ready && !restoring && o.target in was && sent > 0
      && HoldsStill(guests, o.temporary, was[o.target].image)
    }

    /** A replacement cloned from the template stands in the target's place. */
    ghost predicate Replaced()
      reads this
    {
      && o.target in guests && o.template in was && o.template != o.target
      && guests[o.target].image == was[o.template].image
    }

    /** The settings besides networks that a replacement gets; later ones prevail. */
    ghost function Settings(): map<string, string>
    {
      o.resources + o.cloudInit + o.disk + o.diskLimits
    }

    /** Processor, cloud-init and disk settings: read, change, and perhaps read back. */
    method Adjust(changes: map<string, string>, clean: bool) returns (r: Fate<Reply>)
      requires Safe() && Backed() && Replaced()
      modifies this`guests, this`sent
      ensures Safe() && Backed() && Replaced() && Rewritten(old(guests), guests, o.target)
      ensures r.Alive? && r.value.Failed? ==> Foreign(r.value.error)
      ensures r == Alive(Fine) ==> Config() == old(Config()) + changes
      ensures clean ==> r == Alive(Fine)
    {
      var acceptable := Ask(clean);
      var current := Read(o.target, clean);
      if !acceptable || current == None {
        var e := AnyError();
        return Alive(Failed(e));
      }
      var g := current.value;
      r := Configure(g.(setup := g.setup.(config := g.setup.config + changes)), clean);
      var readBack := Ask(clean);
      if r == Alive(Fine) && !readBack {
        r := Alive(Failed(Text));
      }
    }

    /** Resources, then the signed interfaces over what the clone had. */
    method ProvisionNetworks(clean: bool) returns (r: Fate<Reply>)
      requires Safe() && Backed() && Replaced() && Signed()
      modifies this`guests, this`sent, this`written
      ensures Safe() && Backed() && Replaced() && Rewritten(old(guests), guests, o.target)
      ensures r.Alive? && r.value.Failed? ==> Foreign(r.value.error)
      ensures r == Alive(Fine) ==> Has(Config(), o.resources)
      ensures r == Alive(Fine) && Distinct(NicNames(o.nics)) ==> Applied(old(Config()), Config(), o.nics)
      ensures clean ==> r.Alive?
      ensures clean && Distinct(NicNames(o.nics)) ==> (r == Alive(Fine) <==> Merges(old(Config()), o.nics))
    {
      ghost var first := guests;
      r := Adjust(o.resources, clean);
      if r == Alive(Fine) {
        ghost var second := guests;
        AllAgree(first[o.target].setup.config, o.resources, o.nics);
        r := SetNetworks(clean);
        RewrittenAgain(first, second, guests, o.target);
        HasStays(second[o.target].setup.config, Config(), o.resources);
        AppliedOver(first[o.target].setup.config, second[o.target].setup.config, Config(), o.nics);
      }
    }

    /** Cloud-init, disk size and disk limits. */
    method ProvisionRest(clean: bool) returns (r: Fate<Reply>)
      requires Safe() && Backed() && Replaced() && Signed() && Has(Config(), o.resources)
      modifies this`guests, this`sent
      ensures Safe() && Backed() && Replaced() && Rewritten(old(guests), guests, o.target)
      ensures r.Alive? && r.value.Failed? ==> Foreign(r.value.error)
      ensures r == Alive(Fine) ==> Has(Config(), Settings()) && AllAgreeOn(old(Config()), Config(), o.nics)
      ensures clean ==> r == Alive(Fine)
    {
      ghost var first := guests;
      r := Adjust(o.cloudInit, clean);
      if r == Alive(Fine) {
        ghost var second := guests;
        r := Adjust(o.disk, clean);
        RewrittenAgain(first, second, guests, o.target);
        if r == Alive(Fine) {
          ghost var third := guests;
          r := Adjust(o.diskLimits, clean);
          RewrittenAgain(first, third, guests, o.target);
          HasMore(first[o.target].setup.config, o.resources, o.cloudInit, o.disk, o.diskLimits);
          RestAgreesOn(first[o.target].setup.config, o.cloudInit, o.disk, o.diskLimits, o.nics);
        }
      }
    }

    /** Everything between cloning the template and starting the replacement. */
    method Provision(wellFormed: Delivery -> bool, clean: bool) returns (r: Fate<Reply>)
      requires Safe() && Backed() && Replaced() && Signed() && ValidDelivery(o.expected, wellFormed)
      modifies this`guests, this`sent, this`written
      ensures Safe() && Backed() && Replaced() && Reconfigured(old(guests), guests, o.target)
      ensures r.Alive? && r.value.Failed? ==> Foreign(r.value.error)
      ensures r == Alive(Fine) ==> Has(Config(), Settings()) && Firewalled(guests[o.target].setup.firewall, o.expected, o.tools.canonical)
      ensures r == Alive(Fine) && Distinct(NicNames(o.nics)) ==> Applied(old(Config()), Config(), o.nics)
      ensures clean ==> r.Alive?
      ensures clean && Distinct(NicNames(o.nics)) ==>
                (r == Alive(Fine) <==> Merges(old(Config()), o.nics) && Buildable(old(guests)[o.target].setup.firewall))
    {
      r := ProvisionNetworks(clean);
      if r == Alive(Fine) {
        r := RestoreFirewall(wellFormed, clean);
      }
      if r == Alive(Fine) {
        ghost var before := Config();
        r := ProvisionRest(clean);
        if r == Alive(Fine) && Distinct(NicNames(o.nics)) {
          AppliedTo(old(Config()), before, Config(), o.nics);
        }
      }
    }

    /** Cloud-init's status command ended with a settled exit code. */
    method AwaitCloudInit(clean: bool) returns (ok: bool, exit: Option<int>)
      modifies this`settled
      ensures settled == (ok || old(settled))
      ensures ok <==> exit == Some(0) || exit == Some(1) || exit == Some(2)
      ensures clean ==> ok
    {
      exit := *;
      exit := if clean then Some(0) else exit;
      ok := exit.Some? && Settled(exit.value);
      settled := settled || ok;
    }

    /** Set and read back the timezone, which cloud-init must not overwrite later. */
    method SetTimezone(clean: bool) returns (ok: bool)
      requires settled
      modifies this`zoned
      ensures zoned == (ok || old(zoned))
      ensures clean ==> ok
    {
      ok := Ask(clean);
      zoned := zoned || ok;
    }

    /** Running, as signed, and finished in the right order. */
    ghost predicate Delivered()
      reads this
    {
      settled && zoned && TargetProven() && guests[o.target].power == Running
    }

    /** One attempt at the readiness proof; the flags remember finished stages. */
    method VerifyOnce(cloudInitReady: bool, timezoneVerified: bool, clean: bool)
      returns (ok: bool, cloudInitNow: bool, timezoneNow: bool)
      requires Signed() && (cloudInitReady ==> settled) && (timezoneVerified ==> zoned)
      modifies this`settled, this`zoned
      ensures (cloudInitNow ==> settled) && (timezoneNow ==> zoned)
      ensures ok ==> Delivered()
      ensures clean && TargetProven() && guests[o.target].power == Running ==> ok
    {
      ok, cloudInitNow, timezoneNow := true, cloudInitReady, timezoneVerified;
      if !cloudInitNow {
        var exit;
        cloudInitNow, exit := AwaitCloudInit(clean);
        if !cloudInitNow {
          ok := false;
          return;
        }
      }
      if !timezoneNow {
        timezoneNow := SetTimezone(clean);
        if !timezoneNow {
          ok := false;
          return;
        }
      }
      var current := Read(o.target, clean);
      var resources := Ask(clean);
      var proven := VerifyNetworks(clean);
      var identity := Ask(clean);
      ok := current.Some? && current.value.power == Running && resources && proven && identity;
    }

    /** Repeat the proof until it passes, an error is final, or time runs out. */
    method AwaitReadiness(polls: nat, clean: bool) returns (ok: bool)
      requires Signed() && !ready
      modifies this`settled, this`zoned, this`ready
      ensures ready == ok
      ensures ok ==> Delivered()
      ensures clean && TargetProven() && guests[o.target].power == Running ==> ok
    {
      var cloudInitReady, timezoneVerified;
      ok, cloudInitReady, timezoneVerified := VerifyOnce(false, false, clean);
      for i := 0 to polls
        invariant (cloudInitReady ==> settled) && (timezoneVerified ==> zoned)
        invariant ok ==> Delivered()
        invariant clean && TargetProven() && guests[o.target].power == Running ==> ok
      {
        var retryable := Ask(false);
        if ok || !retryable {
          break;
        }
        ok, cloudInitReady, timezoneVerified := VerifyOnce(cloudInitReady, timezoneVerified, clean);
      }
      ready := ok;
    }

    /** Start the replacement and wait for its proof. */
    method Launch(polls: nat, clean: bool) returns (r: Fate<Reply>)
      requires Safe() && Backed() && Replaced() && Signed()
      modifies this`guests, this`sent, this`settled, this`zoned, this`ready
      ensures Safe() && Replaced() && sent > 0 && !restoring && ready == (r == Alive(Fine))
      ensures r.Alive? && r.value.Failed? ==> Foreign(r.value.error)
      ensures r == Alive(Fine) ==> Delivered()
      ensures r != Alive(Fine) ==> Backed()
      ensures guests[o.target].setup == old(guests)[o.target].setup
      ensures clean ==> r.Alive? && (r == Alive(Fine) <==> old(TargetProven()))
      ensures o.target in was && HoldsStill(guests, o.temporary, was[o.target].image)
    {
      r := EnsurePower(Start, Of(clean));
      if r == Alive(Fine) {
        var ok := AwaitReadiness(polls, clean);
        var e := AnyError();
        r := Alive(if ok then Fine else Failed(e));
      }
    }

    // ----------------------------------------------------------------- The saga

    /** What the inspection before any request demands of the cluster. */
    ghost predicate Inspected()
    {
      && o.target in was && o.temporary !in was && o.template in was
      && was[o.target].node == o.node && was[o.target].kind == Qemu && !was[o.target].template && was[o.target].power != Unknown
    }

    /** Nothing is requested until the target, the temporary number and the template
        have been inspected. The result is the target's power state. */
    method CheckFirst(clean: bool) returns (running: Option<bool>)
      requires Safe() && sent == 0
      ensures running.Some? ==> Inspected() && Was(running.value) && o.target in guests
      ensures clean && Inspected() ==> running.Some?
    {
      var transport := Ask(clean);
      var resources := Inventory(clean);
      if !transport || resources == None || o.target !in resources.value {
        return None;
      }
      var target := resources.value[o.target];
      if target.node != o.node || target.kind != Qemu || target.template || target.power == Unknown
         || o.temporary in resources.value {
        return None;
      }
      var template := Read(o.template, clean);
      var digest := Ask(clean);
      if template == None || !digest {
        return None;
      }
      return Some(target.power == Running);
    }

    /** Shut the original down and clone it: the compensation boundary. */
    method TakeBackup(running: bool, clean: bool, stop: Stage) returns (f: Fate<Option<GoError>>)
      requires Safe() && sent == 0 && InPlace() && guests == was && Was(running)
      modifies this`guests, this`sent
      ensures Safe()
      ensures f == Alive(None) ==> Backed() && InPlace() && guests[o.target].power == Stopped
      ensures f.Alive? && f.value.Some? ==> Accounts(f.value.value)
      ensures clean && ((stop == AtShutdown && running) || stop == AtBackup) ==>
                f.Alive? && f.value.Some? && Receipt(f.value.value) == ReinstallRolledBack
      ensures clean && !(stop == AtShutdown && running) && stop != AtBackup ==> f == Alive(None)
    {
      var down :- EnsurePower(Shutdown, At(clean, stop == AtShutdown));
      if down != Fine {
        f := FailedShutdown(running, down.error, clean);
        return;
      }
      var cloned :- Clone(o.target, o.temporary, guests[o.target].setup, At(clean, stop == AtBackup));
      if cloned != Fine {
        var e :- RollbackEarly(running, cloned.error, clean);
        return Alive(Some(e));
      }
      return Alive(None);
    }

    method FailedShutdown(running: bool, cause: GoError, clean: bool) returns (f: Fate<Option<GoError>>)
      requires Safe() && InPlace() && Was(running) && Foreign(cause) && o.temporary !in guests
      modifies this`guests, this`sent
      ensures Safe()
      ensures f.Alive? ==> f.value.Some? && Accounts(f.value.value)
      ensures clean ==> f.Alive? && Receipt(f.value.value) == ReinstallRolledBack
    {
      var powered :- RestorePower(running, clean);
      if powered != Fine {
        return Alive(Some(Note(Known(Indeterminate))));
      }
      SameGuests(guests, was, o.target, o.temporary);
      RolledBackReceipt(cause);
      return Alive(Some(RolledBackAfter(cause)));
    }

    /** Delete the original; afterwards it is only in the clone. */
    method RemoveOriginal(running: bool, clean: bool, stop: Stage) returns (f: Fate<Option<GoError>>)
      requires Safe() && Backed() && InPlace() && Was(running) && Signed() && guests[o.target].power == Stopped
      modifies this`guests, this`sent, this`written, this`restoring
      ensures Safe()
      ensures f == Alive(None) ==> Backed() && o.target !in guests
      ensures f.Alive? && f.value.Some? ==> Accounts(f.value.value)
      ensures clean && stop == AtRemoval ==> f.Alive? && f.value.Some? && Receipt(f.value.value) == ReinstallRolledBack
      ensures clean && stop != AtRemoval ==> f == Alive(None)
    {
      var deleted :- Delete(o.target, At(clean, stop == AtRemoval));
      if deleted == Fine {
        return Alive(None);
      }
      var present := Inventory(clean);
      var e;
      if present == None {
        e := Note(Known(Indeterminate));
      } else if o.target in present.value {
        e :- RollbackEarly(running, deleted.error, clean);
      } else {
        e :- Compensate(running, deleted.error, NO_SETUP, false);
      }
      return Alive(Some(e));
    }

    /** Clone the template into the freed number; `cloned` is what PVE gives a clean clone. */
    method CloneTemplate(cloned: Setup, clean: bool) returns (r: Fate<Reply>)
      requires Safe() && Backed() && o.target !in guests && o.template != o.temporary
      modifies this`guests, this`sent
      ensures Safe() && Backed()
      ensures r.Alive? && r.value.Failed? ==> Foreign(r.value.error)
      ensures r == Alive(Fine) ==> Replaced()
      ensures clean ==> r.Alive? && (r == Alive(Fine) <==> o.template in was && o.template != o.target)
      ensures clean && r == Alive(Fine) ==> guests[o.target].setup == cloned
    {
      ghost var others := guests - {o.target, o.temporary};
      assert o.template != o.target ==> (o.template in guests <==> o.template in others);
      assert o.template != o.target ==> (o.template in was <==> o.template in was - {o.target, o.temporary});
      r := Clone(o.template, o.target, cloned, Of(clean));
    }

    /** A replacement can be made of the template's clone: every interface can be merged
        and delivered, and the firewall can be built. */
    ghost predicate Replaceable(cloned: Setup)
    {
      && o.template in was && o.template != o.target
      && Merges(cloned.config, o.nics) && Deliverable(cloned.config, o.nics, o.expected) && Buildable(cloned.firewall)
    }

    /** The way forward: clone, provision, start, prove. */
    method BuildReplacement(wellFormed: Delivery -> bool, polls: nat, cloned: Setup, clean: bool) returns (r: Fate<Reply>)
      requires Safe() && Backed() && o.target !in guests && o.template != o.temporary && Signed()
      requires ValidDelivery(o.expected, wellFormed)
      modifies this`guests, this`sent, this`written, this`settled, this`zoned, this`ready
      ensures Safe() && sent > 0 && !restoring && ready == (r == Alive(Fine))
      ensures r.Alive? && r.value.Failed? ==> Foreign(r.value.error)
      ensures ready ==> Delivered() && Replaced() && Has(Config(), Settings())
      ensures !ready ==> Backed()
      ensures clean ==> r.Alive?
      ensures clean && Distinct(NicNames(o.nics)) ==> (r == Alive(Fine) <==> Replaceable(cloned))
      ensures o.target in was && HoldsStill(guests, o.temporary, was[o.target].image)
    {
      r := CloneTemplate(cloned, clean);
      if r == Alive(Fine) {
        r := ProvisionAndLaunch(wellFormed, polls, clean);
      }
    }

    method ProvisionAndLaunch(wellFormed: Delivery -> bool, polls: nat, clean: bool) returns (r: Fate<Reply>)
      requires Safe() && Backed() && Replaced() && Signed() && ValidDelivery(o.expected, wellFormed)
      modifies this`guests, this`sent, this`written, this`settled, this`zoned, this`ready
      ensures Safe() && sent > 0 && !restoring && ready == (r == Alive(Fine))
      ensures r.Alive? && r.value.Failed? ==> Foreign(r.value.error)
      ensures ready ==> Delivered() && Replaced() && Has(Config(), Settings())
      ensures !ready ==> Backed()
      ensures clean ==> r.Alive?
      ensures clean && Distinct(NicNames(o.nics)) ==>
                (r == Alive(Fine) <==> Merges(old(Config()), o.nics) && Deliverable(old(Config()), o.nics, o.expected)
                                       && Buildable(old(guests)[o.target].setup.firewall))
      ensures o.target in was && HoldsStill(guests, o.temporary, was[o.target].image)
    {
      r := Provision(wellFormed, clean);
      if r == Alive(Fine) {
        if Distinct(NicNames(o.nics)) {
          ReappliedGuestProven(old(Config()), guests[o.target].setup, o.nics, o.expected, o.tools);
        }
        r := Launch(polls, clean);
      }
    }

    /** The proven replacement no longer needs the clone of the original. */
    method DropBackup(clean: bool) returns (f: Fate<Option<GoError>>)
      requires Safe() && ready && !restoring && sent > 0 && Delivered() && Replaced() && Has(Config(), Settings())
      requires o.temporary in guests ==> guests[o.temporary].power == Stopped
      modifies this`guests, this`sent
      ensures Safe() && ready && Delivered() && Replaced() && Has(Config(), Settings())
      ensures f == Alive(None) ==> o.temporary !in guests
      ensures f.Alive? && f.value.Some? ==> Accounts(f.value.value)
      ensures clean ==> f == Alive(None)
    {
      var cleaned :- Delete(o.temporary, Of(clean));
      return Alive(if cleaned == Fine then None else Some(Note(Known(Indeterminate))));
    }

    /** A proven replacement of the template's contents runs in the target's place. */
    ghost predicate Reinstalled()
      reads this
    {
      && ready && o.target in guests && o.template in was && o.template != o.target
      && guests[o.target].image == was[o.template].image && guests[o.target].power == Running
      && settled && zoned && TargetProven() && Has(Config(), Settings())
    }

    /** Build the replacement, or put the original back; `back` is what PVE gives a clean
        clone of the compensation clone. */
    method Replace(running: bool, wellFormed: Delivery -> bool, polls: nat, cloned: Setup, back: Setup, clean: bool)
      returns (f: Fate<Option<GoError>>)
      requires Safe() && Backed() && o.target !in guests && Was(running) && Signed()
      requires ValidDelivery(o.expected, wellFormed) && o.template != o.temporary
      modifies this
      ensures Safe()
      ensures ready ==> Reinstalled()
      ensures f == Alive(None) ==> ready && o.temporary !in guests
      ensures f.Alive? && f.value.Some? ==> Accounts(f.value.value)
      ensures clean && Distinct(NicNames(o.nics)) ==> f.Alive? && (f.value == None <==> Replaceable(cloned))
      ensures clean && Distinct(NicNames(o.nics)) && !Replaceable(cloned) ==>
                (Receipt(f.value.value) == ReinstallRolledBack <==> Restorable(back))
    {
      var step :- BuildReplacement(wellFormed, polls, cloned, clean);
      if step == Fine {
        f := DropBackup(clean);
      } else {
        var e :- Compensate(running, step.error, back, clean);
        return Alive(Some(e));
      }
    }

    /** One of the steps before the original's deletion is the refused one. */
    ghost predicate StopsEarly(stop: Stage)
    {
      stop == AtBackup || stop == AtRemoval || (stop == AtShutdown && o.target in was && was[o.target].power == Running)
    }

    /** The whole run. Whatever is refused, or done but reported as an error, and
        wherever the process dies: other guests are untouched, the original's contents
        survive until a replacement is proven, and the reported class is the truth.
        Without faults, or with the one refusal `stop`, its result is known: rejected if
        the cluster is not as the inspection wants it; rolled back if a step before the
        deletion was refused; else success if and only if a replacement can be made of
        the template's clone; and if not, rolled back if and only if the original can be
        restored from its own. */
    method Run(wellFormed: Delivery -> bool, polls: nat, cloned: Setup, back: Setup, stop: Stage, clean: bool)
      returns (f: Fate<Option<GoError>>)
      requires Safe() && sent == 0 && guests == was && !ready && !restoring
      requires o.template != o.temporary && Signed() && ValidDelivery(o.expected, wellFormed)
      modifies this
      ensures Safe()
      ensures sent > 0 ==> Inspected()
      ensures ready ==> Reinstalled()
      ensures f == Alive(None) ==> ready && o.temporary !in guests
      ensures f.Alive? && f.value.Some? ==> Accounts(f.value.value)
      ensures clean && Distinct(NicNames(o.nics)) ==>
                f.Alive? && (f.value == None <==> Inspected() && !StopsEarly(stop) && Replaceable(cloned))
      ensures clean && !Inspected() ==> f.Alive? && f.value.Some? && Receipt(f.value.value) == PreflightRejected
      ensures clean && Inspected() && StopsEarly(stop) ==> f.Alive? && f.value.Some? && Receipt(f.value.value) == ReinstallRolledBack
      ensures clean && Distinct(NicNames(o.nics)) && Inspected() && !StopsEarly(stop) && !Replaceable(cloned) ==>
                (Receipt(f.value.value) == ReinstallRolledBack <==> Restorable(back))
    {
      var running := CheckFirst(clean);
      if running == None {
        return Alive(Some(Note(Known(Preflight))));
      }
      var failed :- TakeBackup(running.value, clean, stop);
      if failed == None {
        failed :- RemoveOriginal(running.value, clean, stop);
        if failed == None {
          f := Replace(running.value, wellFormed, polls, cloned, back, clean);
          return;
        }
      }
      return Alive(failed);
    }
  }
}

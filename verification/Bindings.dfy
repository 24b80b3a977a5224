/** Binding and unbinding the two trust domains of one host: the files they
    keep, the guard that decides what a restarted service may load, and what is
    true of the files at every crash point. */
module BindingFiles {
  import opened Common

  datatype Domain = Website | Monitoring

  function Other(d: Domain): Domain {
    if d == Website then Monitoring else Website
  }

  /** One file of the same kind per trust domain. */
  datatype Each<T> = Each(website: T, monitoring: T) {
    function Of(d: Domain): T {
      if d == Website then website else monitoring
    }

    function Set(d: Domain, x: T): Each<T> {
      if d == Website then Each(x, monitoring) else Each(website, x)
    }
  }

  /** The identity of one enrollment response: binding id and credential epoch. */
  datatype Issue = Issue(bindingId: string, epoch: nat)

  /** The public configuration. A domain's section is `None` once it is switched
      off, and otherwise names the response it was written from. */
  datatype Config = Config(section: Each<Option<Issue>>, production: bool) {
    function Disabled(d: Domain): Config {
      Config(section.Set(d, None), false)
    }

    /** Real writes stay off unless both trust domains are configured. */
    predicate Guarded() {
      production ==> section.website.Some? && section.monitoring.Some?
    }

    predicate RemovalApplied(d: Domain) {
      section.Of(d) == None && !production
    }
  }

  datatype Marker = Marker(issue: Issue, backup: nat)

  /** Every durable file the commands read or write. `pending` holds the
      fingerprint of an unresolved enrollment request; `refresh` says that the running
      agent has left a refresh authority behind. */
  datatype Disk = Disk(
    config: Config,
    state: Each<Option<Issue>>,
    pending: Each<Option<nat>>,
    commit: Each<Option<Issue>>,
    unbind: Each<Option<Marker>>,
    backups: map<(Domain, nat), Issue>,
    assignment: Option<Issue>,
    refresh: bool)
  {
    /** The domain has a commit marker, a removal marker or an unresolved request. */
    predicate Busy(d: Domain) {
      commit.Of(d).Some? || unbind.Of(d).Some? || pending.Of(d).Some?
    }

    predicate FullyBound(d: Domain, issue: Issue) {
      config.section.Of(d) == state.Of(d) == Some(issue) && !commit.Of(d).Some? && !unbind.Of(d).Some?
    }

    predicate FullyUnbound(d: Domain) {
      config.RemovalApplied(d) && state.Of(d) == None && !commit.Of(d).Some? && !unbind.Of(d).Some?
    }
  }

  const FRESH_DISK := Disk(Config(Each(None, None), false), Each(None, None), Each(None, None), Each(None, None),
                           Each(None, None), map[], None, false)

  /** The credentials a service would load for one domain. */
  function Credentials(k: Disk, d: Domain): Result<Option<Issue>> {
    if k.config.section.Of(d) == None then Ok(None)
    else if k.state.Of(d) == None then Err
    else Ok(k.state.Of(d))
  }

  /** The start-up guard. Later field comparisons can only refuse more. */
  function Resolve(k: Disk): Result<Each<Option<Issue>>> {
    if k.commit.website.Some? || k.commit.monitoring.Some? then Err
    else if k.unbind.website.Some? && !k.config.RemovalApplied(Website) then Err
    else if k.unbind.monitoring.Some? && !k.config.RemovalApplied(Monitoring) then Err
    else
      var w, m := Credentials(k, Website), Credentials(k, Monitoring);
      if w.Ok? && m.Ok? then Ok(Each(w.value, m.value)) else Err
  }

  /** What holds of one domain's files at every crash point. `before` is the
      configuration at the moment the removal marker was written. */
  ghost predicate DomainInv(k: Disk, before: Config, d: Domain) {
    match (k.commit.Of(d), k.unbind.Of(d))
    case (None, None) =>
      k.config.section.Of(d) == k.state.Of(d)
    case (Some(issue), None) =>
      k.state.Of(d) == Some(issue) ==> k.config.section.Of(d) == Some(issue)
    case (None, Some(m)) =>
      && k.pending.Of(d) == None
      && before.Guarded() && before.section.Of(d) == Some(m.issue)
      && (k.config == before || k.config == before.Disabled(d))
      && (k.state.Of(d) == None || k.state.Of(d) == Some(m.issue))
      && ((d, m.backup) in k.backups ==> k.backups[(d, m.backup)] == m.issue)
    case (Some(_), Some(_)) =>
      false
  }

  ghost predicate Inv(k: Disk, before: Config) {
    && !(k.Busy(Website) && k.Busy(Monitoring))
    && k.config.Guarded()
    && DomainInv(k, before, Website)
    && DomainInv(k, before, Monitoring)
  }

  /** A removal journal that still has the old configuration also has its preimage. */
  predicate HasPreimage(k: Disk, d: Domain) {
    match k.unbind.Of(d)
    case None => true
    case Some(m) => k.config.RemovalApplied(d) || (d, m.backup) in k.backups
  }

  predicate Recoverable(k: Disk) {
    HasPreimage(k, Website) && HasPreimage(k, Monitoring)
  }

  /** Whenever the guard lets a service start with a domain's credentials, the
      public section and the private state come from the same response. */
  lemma ResolveIsConsistent(k: Disk, before: Config, d: Domain)
    requires Inv(k, before)
    requires Resolve(k).Ok? && Resolve(k).value.Of(d).Some?
    ensures k.config.section.Of(d) == k.state.Of(d) == Resolve(k).value.Of(d)
  {
    assert DomainInv(k, before, d);
  }

  /** Whenever the guard lets a service start, it loads credentials for exactly the domains
      that are configured, also while the other domain's removal is in force. */
  lemma ResolveLoads(k: Disk, before: Config, d: Domain)
    requires Inv(k, before) && Resolve(k).Ok?
    ensures Resolve(k).value.Of(d).Some? <==> k.config.section.Of(d).Some?
    ensures k.unbind.Of(Other(d)).Some? ==>
              (Resolve(k).value.Of(d).Some? <==> before.section.Of(d).Some?) && Resolve(k).value.Of(Other(d)) == None
  {
    assert DomainInv(k, before, d) && DomainInv(k, before, Other(d));
  }

  /** The guard refuses exactly while a commit marker exists or a removal marker
      still has the old configuration: outside a transaction it never refuses. */
  lemma ResolveRefusesExactly(k: Disk, before: Config)
    requires Inv(k, before)
    ensures Resolve(k).Err? <==>
            exists d :: k.commit.Of(d).Some? || (k.unbind.Of(d).Some? && !k.config.RemovalApplied(d))
  {
    if k.commit.Of(Website).Some? || (k.unbind.Of(Website).Some? && !k.config.RemovalApplied(Website)) {
    } else if k.commit.Of(Monitoring).Some? || (k.unbind.Of(Monitoring).Some? && !k.config.RemovalApplied(Monitoring)) {
    }
  }

  /** If the journal's write takes effect but reports an error, discarding the
      snapshot strands the removal: the guard keeps refusing and no preimage is left. */
  lemma TornMarkerStrands(k: Disk, before: Config, d: Domain, backup: nat)
    requires Inv(k, before) && k.state.Of(d).Some? && !k.Busy(d) && !k.Busy(Other(d))
    ensures var copied := k.(backups := k.backups[(d, backup) := k.state.Of(d).value]);
            var marked := copied.(unbind := copied.unbind.Set(d, Some(Marker(k.state.Of(d).value, backup))));
            var discarded := marked.(backups := marked.backups - {(d, backup)});
            && Inv(marked, k.config) && Recoverable(marked)
            && Inv(discarded, k.config) && !HasPreimage(discarded, d) && Resolve(discarded).Err?
  {
    assert DomainInv(k, before, d) && DomainInv(k, before, Other(d));
  }

  function Count(b: bool): nat {
    if b then 1 else 0
  }

  /** At most one of the four markers exists, at most one domain has a pending
      request, and neither is ever beside a transaction of the other domain. */
  lemma AtMostOneInFlight(k: Disk, before: Config)
    requires Inv(k, before)
    ensures Count(k.commit.website.Some?) + Count(k.commit.monitoring.Some?)
            + Count(k.unbind.website.Some?) + Count(k.unbind.monitoring.Some?) <= 1
    ensures Count(k.pending.website.Some?) + Count(k.pending.monitoring.Some?) <= 1
    ensures forall d :: k.unbind.Of(d).Some? ==> !k.Busy(Other(d)) && k.pending.Of(d) == None
  {
    forall d | k.unbind.Of(d).Some?
      ensures !k.Busy(Other(d)) && k.pending.Of(d) == None
    {
      assert DomainInv(k, before, d);
    }
  }
}

/** The root commands that rewrite the files, one durable write at a time. */
module BindingCommands {
  import opened Common
  import opened BindingFiles

  datatype Exit = Done | Failed

  datatype Reply = Issued(issue: Issue) | Rejected | Ambiguous

  /** The host. Root commands hold one lock, so they run one at a time; `disk` is
      all that a crash leaves behind. */
  class Host {
    var disk: Disk
    ghost var before: Config

    ghost predicate Valid()
      reads this
    {
      Inv(disk, before)
    }

    constructor ()
      ensures Valid() && Recoverable(disk) && disk == FRESH_DISK
    {
      disk := FRESH_DISK;
      before := FRESH_DISK.config;
    }

    /** One atomic durable write. Unless `clean`, it may be refused, may take
        effect and still report an error, and the process may die around it. */
    method Store(next: Disk, clean: bool) returns (f: Fate<bool>)
      modifies this`disk
      ensures disk == old(disk) || disk == next
      ensures f == Alive(true) ==> disk == next
      ensures clean ==> f == Alive(true)
    {
      var applied: bool, reported: bool, died: bool := *, *, *;
      if applied || reported || clean {
        disk := next;
      }
      f := if clean then Alive(true) else if died then Died else Alive(reported);
    }

    /** The write of a removal marker. Unless it `tears`, an error means no effect. */
    method StoreMarker(next: Disk, clean: bool, tears: bool) returns (f: Fate<bool>)
      modifies this`disk
      ensures disk == old(disk) || disk == next
      ensures f == Alive(true) ==> disk == next
      ensures f == Alive(false) && !tears ==> disk == old(disk)
      ensures clean ==> f == Alive(true)
    {
      var was := disk;
      f := Store(next, clean);
      if f == Alive(false) && !tears {
        disk := was;
      }
    }

    /** Something outside the model answers: the service manager, the prompt, the
        enrollment service or a validation of text. */
    method Ask(clean: bool) returns (ok: bool)
      ensures clean ==> ok
    {
      ok := *;
      ok := ok || clean;
    }

    // ------------------------------------------------------------- Binding

    /** The private files already hold the response that the marker announces. */
    ghost predicate Written(k: Disk, d: Domain, issue: Issue)
    {
      && k.commit.Of(d) == k.state.Of(d) == Some(issue)
      && (d == Website ==> k.assignment == Some(issue))
    }

    /** `durable` writes meet no fault, whatever the outside answers. */
    method Finalize(d: Domain, expected: Issue, clean: bool, durable: bool) returns (f: Fate<bool>)
      requires Valid()
      modifies this`disk
      ensures Valid() && (old(Recoverable(disk)) ==> Recoverable(disk))
      ensures f == Alive(true) ==> disk.FullyBound(d, expected) && !disk.Busy(d)
      ensures f == Alive(true) ==> old(Written(disk, d, expected))
      ensures clean && old(Written(disk, d, expected)) ==> f == Alive(true)
      ensures disk.refresh == old(disk).refresh
      // A commit that cannot be completed keeps, or gets back, its marker.
      ensures durable && f != Alive(true) ==> f == Alive(false) && disk.commit == old(disk).commit
    {
      if disk.state.Of(d) != Some(expected)
         || (d == Website && disk.assignment != Some(expected))
         || (d == Monitoring && disk.config.section.Of(d) != Some(expected)) {
        return Alive(false);
      }
      if disk.commit.Of(d) != Some(expected) {
        return Alive(false);
      }
      var armed := Ask(clean);
      if !armed {
        return Alive(false);
      }
      var cleared :- Store(disk.(pending := disk.pending.Set(d, None)), clean || durable);
      if !cleared {
        return Alive(false);
      }
      var finished :- Store(disk.(commit := disk.commit.Set(d, None)), clean || durable);
      if !finished {
        return Alive(false);
      }
      var runtime := Ask(clean);
      if !runtime || Resolve(disk).Err? || Resolve(disk).value.Of(d) != Some(expected) {
        var _ :- Store(disk.(commit := disk.commit.Set(d, Some(expected))), durable);
        return Alive(false);
      }
      return Alive(true);
    }

    /** A replacement must carry a newer credential epoch than what it replaces. */
    predicate Advances(previous: Option<Issue>, issue: Issue)
    {
      previous == None || previous.value.epoch == 0 || issue.epoch > previous.value.epoch
    }

    /** The local half of an enrollment, once the service has issued credentials. */
    method Commit(d: Domain, issue: Issue, previous: Option<Issue>, clean: bool) returns (f: Fate<Exit>)
      requires Valid() && disk.unbind == Each(None, None) && !disk.Busy(Other(d))
      modifies this`disk
      ensures Valid() && (old(Recoverable(disk)) ==> Recoverable(disk))
      ensures f == Alive(Done) ==> disk.FullyBound(d, issue) && !disk.Busy(d) && (d == Website ==> !disk.refresh)
      // A resumed commit refuses every response but the announced one.
      ensures old(disk).commit.Of(d).Some? && old(disk).commit.Of(d) != Some(issue) ==> f == Alive(Failed) && disk == old(disk)
      ensures clean && (old(disk).commit.Of(d) == None || old(disk).commit.Of(d) == Some(issue)) ==>
                (f == Alive(Done) <==> Advances(previous, issue))
    {
      if disk.commit.Of(d).Some? {
        if disk.commit.Of(d) != Some(issue) {
          return Alive(Failed);
        }
      } else {
        var begun :- Store(disk.(commit := disk.commit.Set(d, Some(issue))), clean);
        if !begun {
          return Alive(Failed);
        }
      }
      if previous.Some? && previous.value.epoch != 0 && issue.epoch <= previous.value.epoch {
        return Alive(Failed);
      }
      var acceptable := Ask(clean);
      if !acceptable {
        return Alive(Failed);
      }
      f := WriteResponse(d, issue, clean);
    }

    /** Assignment, public configuration and, last of all, private credentials. */
    method WriteResponse(d: Domain, issue: Issue, clean: bool) returns (f: Fate<Exit>)
      requires Valid() && disk.unbind == Each(None, None) && !disk.Busy(Other(d))
      requires disk.commit.Of(d) == Some(issue)
      modifies this`disk
      ensures Valid() && (old(Recoverable(disk)) ==> Recoverable(disk))
      ensures f == Alive(Done) ==> disk.FullyBound(d, issue) && !disk.Busy(d) && (d == Website ==> !disk.refresh)
      ensures clean ==> f == Alive(Done)
    {
      if d == Website {
        var documented :- Store(disk.(assignment := Some(issue)), clean);
        if !documented {
          return Alive(Failed);
        }
        var forgotten :- Store(disk.(refresh := false), clean);
        if !forgotten {
          return Alive(Failed);
        }
      }
      var section := disk.config.section.Set(d, Some(issue));
      var enable: bool := *;
      var production := enable && section.website.Some? && section.monitoring.Some? && disk.state.Of(Other(d)).Some?;
      var configured :- Store(disk.(config := Config(section, production)), clean);
      if !configured {
        return Alive(Failed);
      }
      var saved :- Store(disk.(state := disk.state.Set(d, Some(issue))), clean);
      if !saved {
        return Alive(Failed);
      }
      var finalized :- Finalize(d, issue, clean, clean);
      if !finalized {
        return Alive(Failed);
      }
      var activated := Ask(clean);
      return Alive(if activated then Done else Failed);
    }

    /** Local PVE preparation may rewrite the configuration, but of the parts
        modelled here only its production switch. */
    method PreparePve(clean: bool, durable: bool) returns (f: Fate<bool>)
      requires Valid() && disk.commit == Each(None, None) && disk.unbind == Each(None, None)
      modifies this`disk
      ensures Valid() && (old(Recoverable(disk)) ==> Recoverable(disk))
      ensures disk == old(disk).(config := Config(old(disk).config.section, disk.config.production))
      ensures clean ==> f == Alive(true)
      ensures durable && f != Alive(true) ==> f == Alive(false) && disk == old(disk)
    {
      var original := disk.config;
      var enable: bool := *;
      var production := enable && original.section.website.Some? && original.section.monitoring.Some?;
      var saved :- Store(disk.(config := Config(original.section, production)), clean || durable);
      if !saved {
        return Alive(false);
      }
      var active := Ask(clean);
      if !active {
        var _ :- Store(disk.(config := original), durable);
        return Alive(false);
      }
      return Alive(true);
    }

    /** Enroll a domain, or resume its unfinished enrollment. `fingerprint` is the
        digest of the request the operator's code would send, `reply` what the
        service answers to it. */
    method Bind(d: Domain, replace: bool, fingerprint: nat, reply: Reply, clean: bool) returns (f: Fate<Exit>)
      requires Valid()
      modifies this`disk
      ensures Valid() && (old(Recoverable(disk)) ==> Recoverable(disk))
      ensures f == Alive(Done) ==> disk.state.Of(d).Some? && disk.FullyBound(d, disk.state.Of(d).value) && !disk.Busy(d)
      // A retry with the same code, answered with the same response, always completes.
      ensures clean && old(disk).commit.Of(d).Some? && old(disk).pending.Of(d) == Some(fingerprint)
              && reply == Issued(old(disk).commit.Of(d).value)
              ==> f == Alive(Done) && disk.FullyBound(d, reply.issue)
      // Nothing happens beside another transaction, nor to a binding nobody asked to replace.
      ensures old(disk).unbind != Each(None, None) || old(disk).Busy(Other(d)) ==> f == Alive(Failed) && disk == old(disk)
      ensures !replace && old(disk).state.Of(d).Some? && !old(disk).Busy(d) ==> f == Alive(Failed) && disk == old(disk)
      // On a quiet host a fault-free enrollment binds exactly an unbound domain, or one
      // that is to be replaced by newer credentials.
      ensures clean && !old(disk).Busy(d) && !old(disk).Busy(Other(d)) && reply.Issued? ==>
                (f == Alive(Done) && disk.FullyBound(d, reply.issue) <==>
                 old(disk).state.Of(d) == None || (replace && Advances(old(disk).state.Of(d), reply.issue)))
      // A marker whose request was already cleared completes exactly when the
      // private files had already been written.
      ensures clean && old(disk).commit.Of(d).Some? && old(disk).pending.Of(d) == None ==>
                (f == Alive(Done) <==> Written(old(disk), d, old(disk).commit.Of(d).value))
    {
      if disk.unbind.website.Some? || disk.unbind.monitoring.Some? {
        return Alive(Failed);
      }
      if disk.commit.Of(Other(d)).Some? || disk.pending.Of(Other(d)).Some? {
        return Alive(Failed);
      }
      if disk.commit.Of(d).Some? && disk.pending.Of(d) == None {
        var finalized :- Finalize(d, disk.commit.Of(d).value, clean, clean);
        if !finalized {
          return Alive(Failed);
        }
        var activated := Ask(clean);
        return Alive(if activated then Done else Failed);
      }
      var previous := None;
      if disk.pending.Of(d).Some? {
        var sameEndpoint := Ask(clean);
        if !sameEndpoint {
          return Alive(Failed);
        }
      } else {
        previous := disk.state.Of(d);
        if previous.Some? && !replace {
          return Alive(Failed);
        }
        var prepared :- PreparePve(clean, clean);
        if !prepared {
          return Alive(Failed);
        }
      }
      f := Request(d, fingerprint, reply, previous, clean, false);
    }

    /** The enrollment request goes out only once it is durable, so that a lost answer
        can be asked for again. */
    method Send(d: Domain, fingerprint: nat, reply: Reply) returns (answer: Reply)
      requires disk.pending.Of(d) == Some(fingerprint)
      ensures answer == reply
    {
      answer := reply;
    }

    /** Persist the request, stop the agent, send the request, act on the answer. */
    method Request(d: Domain, fingerprint: nat, reply: Reply, previous: Option<Issue>, clean: bool, halts: bool) returns (f: Fate<Exit>)
      requires Valid() && disk.unbind == Each(None, None) && !disk.Busy(Other(d))
      modifies this`disk
      ensures Valid() && (old(Recoverable(disk)) ==> Recoverable(disk))
      // Another request than the pending one is refused before anything is sent.
      ensures old(disk).pending.Of(d).Some? && old(disk).pending.Of(d) != Some(fingerprint) ==>
                f == Alive(Failed) && disk == old(disk)
      ensures f == Alive(Done) ==> reply.Issued? && disk.FullyBound(d, reply.issue) && !disk.Busy(d)
      ensures clean && !halts && (old(disk).pending.Of(d) == None || old(disk).pending.Of(d) == Some(fingerprint)) && reply.Issued?
              && (old(disk).commit.Of(d) == None || old(disk).commit.Of(d) == Some(reply.issue)) ==>
                (f == Alive(Done) <==> Advances(previous, reply.issue))
      // A refusal of the website's own service is forgotten; an unclear answer is not.
      ensures clean && !halts && old(disk).commit.Of(d) == None && old(disk).pending.Of(d) == None && !reply.Issued? ==>
                f == Alive(Failed) && disk == old(disk).(pending := old(disk).pending.Set(d,
                  if reply == Rejected && d == Website then None else Some(fingerprint)))
      // If the agent cannot be stopped nothing is sent, and the request is forgotten.
      ensures clean && halts && (old(disk).pending.Of(d) == None || old(disk).pending.Of(d) == Some(fingerprint)) ==>
                f == Alive(Failed) && disk == old(disk).(pending := old(disk).pending.Set(d, None))
    {
      var resumingCommit := disk.commit.Of(d).Some?;
      var codeRead := Ask(clean);
      if !codeRead {
        return Alive(Failed);
      }
      if disk.pending.Of(d).Some? {
        if disk.pending.Of(d) != Some(fingerprint) {
          return Alive(Failed);
        }
      } else {
        var persisted :- Store(disk.(pending := disk.pending.Set(d, Some(fingerprint))), clean);
        if !persisted {
          return Alive(Failed);
        }
      }
      var quiesced := Answer(clean, halts);
      if !quiesced {
        var _ :- Store(disk.(pending := disk.pending.Set(d, None)), clean);
        return Alive(Failed);
      }
      var answer := Send(d, fingerprint, reply);
      match answer {
        case Rejected =>
          if d == Website && !resumingCommit {
            var _ :- Store(disk.(pending := disk.pending.Set(d, None)), clean);
          }
          return Alive(Failed);
        case Ambiguous =>
          return Alive(Failed);
        case Issued(issue) =>
          f := Commit(d, issue, previous, clean);
      }
    }

    /** Forget an unresolved request the operator has revoked on the service. */
    method DiscardPending(d: Domain, clean: bool) returns (f: Fate<Exit>)
      requires Valid()
      modifies this`disk
      ensures Valid() && (old(Recoverable(disk)) ==> Recoverable(disk))
      ensures f == Alive(Done) ==> disk == old(disk).(pending := old(disk).pending.Set(d, None))
      ensures disk != old(disk) ==>
                old(disk).commit == Each(None, None) && old(disk).unbind == Each(None, None) && old(disk).state.Of(d) == None
      ensures clean ==>
                (f == Alive(Done) <==> old(disk).commit == Each(None, None) && old(disk).unbind == Each(None, None)
                                       && old(disk).state.Of(d) == None && old(disk).pending.Of(d).Some?)
    {
      if disk.unbind != Each(None, None) || disk.commit != Each(None, None) || disk.state.Of(d).Some?
         || disk.pending.Of(d) == None {
        return Alive(Failed);
      }
      var cleared :- Store(disk.(pending := disk.pending.Set(d, None)), clean);
      return Alive(if cleared then Done else Failed);
    }

    /** The running agent of a bound website leaves a refresh authority behind. */
    method AgentRefresh()
      requires Valid()
      modifies this`disk
      ensures Valid() && (old(Recoverable(disk)) ==> Recoverable(disk))
      ensures disk == old(disk) || disk == old(disk).(refresh := true)
      ensures disk != old(disk) ==> Resolve(disk).Ok?
    {
      if Resolve(disk).Ok? && Resolve(disk).value.website.Some? {
        disk := disk.(refresh := true);
      }
    }

    // ------------------------------------------------------------ Unbinding

    /** Only this domain's own removal journal may be in flight. */
    predicate MayUnbind(d: Domain)
      reads this
    {
      && disk.commit == Each(None, None) && disk.pending == Each(None, None)
      && disk.unbind.Of(Other(d)) == None
    }

    /** Remove a domain's binding, or recover its unfinished removal. */
    method Unbind(d: Domain, backup: nat, clean: bool, tears: bool, halt: nat) returns (f: Fate<Exit>)
      requires Valid()
      modifies this
      ensures Valid() && (!tears && old(Recoverable(disk)) ==> Recoverable(disk))
      ensures (clean || old(disk).unbind.Of(d).Some?) && old(Recoverable(disk)) ==> Recoverable(disk)
      // Without faults a journal is always resolved, unless its preimage is gone.
      ensures clean && old(disk).unbind.Of(d).Some? ==>
                (f == Alive(Done) <==> HasPreimage(old(disk), d))
      ensures f == Alive(Done) && old(disk).unbind.Of(d).Some? ==>
                if old(disk).config.RemovalApplied(d)
                then disk.FullyUnbound(d)
                else disk.config == old(before) && disk.FullyBound(d, old(disk).unbind.Of(d).value.issue)
      ensures f == Alive(Done) ==> disk.unbind.Of(d) == None
      // A fault-free removal from a quiet host ends fully unbound; one that an outside
      // answer stops ends bound exactly as before.
      ensures clean && old(disk).state.Of(d).Some? && !old(disk).Busy(d) && !old(disk).Busy(Other(d)) ==>
                if Halts(halt)
                then f == Alive(Failed) && disk.config == old(disk).config && disk.FullyBound(d, old(disk).state.Of(d).value)
                else f == Alive(Done) && disk.FullyUnbound(d)
      ensures disk.state.Of(Other(d)) == old(disk).state.Of(Other(d))
              && disk.config.section.Of(Other(d)) == old(disk).config.section.Of(Other(d))
      // An unbound domain needs nothing; another transaction in flight excludes a removal.
      ensures old(disk).unbind.Of(d) == None && old(disk).state.Of(d) == None ==> f == Alive(Done) && disk == old(disk)
      ensures old(disk).unbind.Of(d) == None && old(disk).state.Of(d).Some? && (old(disk).Busy(d) || old(disk).Busy(Other(d))) ==>
                f == Alive(Failed) && disk == old(disk)
    {
      if disk.unbind.Of(d).Some? {
        if !MayUnbind(d) {
          return Alive(Failed);
        }
        f := ResumeUnbind(d, disk.unbind.Of(d).value, clean);
        return;
      }
      if disk.state.Of(d) == None {
        return Alive(Done);
      }
      var confirmed := Ask(clean);
      if !confirmed || !MayUnbind(d) {
        return Alive(Failed);
      }
      var valid := Ask(clean);
      if !valid {
        return Alive(Failed);
      }
      f := FreshUnbind(d, backup, clean, tears, halt);
    }

    /** Snapshot the private state, then journal the removal. If the journal's write
        reports an error the snapshot is discarded, even when it did take effect. */
    method BeginUnbind(d: Domain, backup: nat, clean: bool, tears: bool) returns (f: Fate<bool>)
      requires Valid() && disk.state.Of(d).Some? && !disk.Busy(d) && !disk.Busy(Other(d))
      modifies this
      ensures Valid() && (!tears && old(Recoverable(disk)) ==> Recoverable(disk))
      ensures f == Alive(true) ==> before == disk.config && HasPreimage(disk, d)
      ensures f == Alive(true) ==> disk.unbind.Of(d) == Some(Marker(old(disk).state.Of(d).value, backup))
      ensures disk.config == old(disk).config && disk.state == old(disk).state
      // The preimage is lost only by a torn marker: written, but reported as an error.
      ensures f == Alive(false) && disk.unbind.Of(d).Some? ==> tears
      ensures !HasPreimage(disk, d) ==> tears && f != Alive(true)
      ensures clean ==> f == Alive(true)
    {
      var issue := disk.state.Of(d).value;
      var copied :- Store(disk.(backups := disk.backups[(d, backup) := issue]), clean);
      if !copied {
        return Alive(false);
      }
      before := disk.config;
      var begun :- StoreMarker(disk.(unbind := disk.unbind.Set(d, Some(Marker(issue, backup)))), clean, tears);
      if !begun {
        var _ :- Store(disk.(backups := disk.backups - {(d, backup)}), false);
      }
      return Alive(begun);
    }

    /** A removal from the start. A step that fails is rolled back at once; in a `clean`
        run the outside answer number `halt` is the only failure. */
    method FreshUnbind(d: Domain, backup: nat, clean: bool, tears: bool, halt: nat) returns (f: Fate<Exit>)
      requires Valid() && disk.state.Of(d).Some? && !disk.Busy(d) && !disk.Busy(Other(d))
      modifies this
      ensures Valid() && (!tears && old(Recoverable(disk)) ==> Recoverable(disk))
      ensures clean ==> Recoverable(disk)
      ensures clean && !Halts(halt) ==> f == Alive(Done) && disk.FullyUnbound(d)
      ensures clean && Halts(halt) ==>
                f == Alive(Failed) && disk.config == old(disk).config && disk.FullyBound(d, old(disk).state.Of(d).value)
      ensures f == Alive(Done) ==> disk.unbind.Of(d) == None
      ensures disk.state.Of(Other(d)) == old(disk).state.Of(Other(d))
              && disk.config.section.Of(Other(d)) == old(disk).config.section.Of(Other(d))
    {
      var original := disk.config;
      var marker := Marker(disk.state.Of(d).value, backup);
      var begun :- BeginUnbind(d, backup, clean, tears);
      if !begun {
        return Alive(Failed);
      }
      var applied :- ApplyRemoval(d, original, marker, clean, halt);
      if !applied {
        var _ :- RollbackUnbind(d, original, marker, clean);
        return Alive(Failed);
      }
      f := FinishForward(d, marker, clean);
    }

    /** One of the three outside answers of a removal is the failing one. */
    predicate Halts(halt: nat)
    {
      1 <= halt <= 3
    }

    /** An outside answer, which in a clean run is known. */
    method Answer(clean: bool, no: bool) returns (ok: bool)
      ensures clean ==> ok == !no
    {
      ok := *;
      ok := if clean then !no else ok;
    }

    /** Restart the service under the journal, then disable the configuration, remove the
        private state, read both back and activate what is left. */
    method ApplyRemoval(d: Domain, original: Config, marker: Marker, clean: bool, halt: nat) returns (f: Fate<bool>)
      requires Valid() && disk.unbind.Of(d) == Some(marker) && original == before == disk.config
      modifies this`disk
      ensures Valid() && (old(Recoverable(disk)) ==> Recoverable(disk))
      ensures disk.unbind == old(disk).unbind && disk.backups == old(disk).backups
      ensures f == Alive(true) ==> disk.config == original.Disabled(d) && disk.state.Of(d) == None
      ensures disk.state.Of(Other(d)) == old(disk).state.Of(Other(d))
              && disk.config.section.Of(Other(d)) == old(disk).config.section.Of(Other(d))
      ensures clean ==> f == Alive(!Halts(halt))
    {
      var restarted := Answer(clean, halt == 1);
      if !restarted {
        return Alive(false);
      }
      var configured :- Store(disk.(config := original.Disabled(d)), clean);
      if !configured {
        return Alive(false);
      }
      var removed :- Store(disk.(state := disk.state.Set(d, None)), clean);
      if !removed {
        return Alive(false);
      }
      var readBack := Answer(clean, halt == 2);
      if !readBack {
        return Alive(false);
      }
      var activated := Answer(clean, halt == 3);
      return Alive(activated);
    }

    /** The removal is in force: drop the preimage, then the journal. */
    method FinishForward(d: Domain, marker: Marker, clean: bool) returns (f: Fate<Exit>)
      requires Valid() && disk.unbind.Of(d) == Some(marker)
      requires disk.config.RemovalApplied(d) && disk.state.Of(d) == None
      modifies this`disk
      ensures Valid() && (old(Recoverable(disk)) ==> Recoverable(disk))
      ensures disk.config == old(disk).config && disk.state == old(disk).state
      ensures f == Alive(Done) ==> disk.FullyUnbound(d)
      ensures clean ==> f == Alive(Done)
    {
      var discarded :- Store(disk.(backups := disk.backups - {(d, marker.backup)}), clean);
      if !discarded {
        return Alive(Failed);
      }
      var finished :- Store(disk.(unbind := disk.unbind.Set(d, None)), clean);
      return Alive(if finished then Done else Failed);
    }

    /** Restore the private preimage, then the configuration, then drop the journal. */
    method RollbackUnbind(d: Domain, original: Config, marker: Marker, clean: bool) returns (f: Fate<bool>)
      requires Valid() && disk.unbind.Of(d) == Some(marker) && original == before
      modifies this`disk
      ensures Valid() && (old(Recoverable(disk)) ==> Recoverable(disk))
      ensures f == Alive(true) ==> disk.config == original && disk.FullyBound(d, marker.issue)
      ensures f == Alive(true) ==> (d, marker.backup) in old(disk).backups
      ensures clean && (d, marker.backup) in old(disk).backups ==> f == Alive(true)
      ensures disk.state.Of(Other(d)) == old(disk).state.Of(Other(d))
              && disk.config.section.Of(Other(d)) == old(disk).config.section.Of(Other(d))
    {
      if (d, marker.backup) !in disk.backups {
        return Alive(false);
      }
      var restored :- Store(disk.(state := disk.state.Set(d, Some(disk.backups[(d, marker.backup)]))), clean);
      if !restored {
        return Alive(false);
      }
      var configured :- Store(disk.(config := original), clean);
      if !configured || disk.config.RemovalApplied(d) || disk.state.Of(d) != Some(marker.issue) {
        return Alive(false);
      }
      var armed := Ask(clean);
      if !armed {
        return Alive(false);
      }
      f := FinishRollback(d, marker, clean);
    }

    /** The old binding is back in both files: drop the journal, then the preimage. */
    method FinishRollback(d: Domain, marker: Marker, clean: bool) returns (f: Fate<bool>)
      requires Valid() && disk.unbind.Of(d) == Some(marker)
      requires disk.config == before && disk.state.Of(d) == Some(marker.issue)
      modifies this`disk
      ensures Valid() && (old(Recoverable(disk)) ==> Recoverable(disk))
      ensures disk.config == old(disk).config && disk.state == old(disk).state
      ensures f == Alive(true) ==> disk.FullyBound(d, marker.issue)
      ensures clean ==> f == Alive(true)
    {
      var finished :- Store(disk.(unbind := disk.unbind.Set(d, None)), clean);
      if !finished {
        return Alive(false);
      }
      var recovered := Ask(clean);
      if !recovered {
        return Alive(false);
      }
      f := Store(disk.(backups := disk.backups - {(d, marker.backup)}), clean);
    }

    /** The old configuration rolls back; the disabled one completes forward. */
    method ResumeUnbind(d: Domain, marker: Marker, clean: bool) returns (f: Fate<Exit>)
      requires Valid() && disk.unbind.Of(d) == Some(marker)
      modifies this`disk
      ensures Valid() && (old(Recoverable(disk)) ==> Recoverable(disk))
      ensures clean ==> (f == Alive(Done) <==> HasPreimage(old(disk), d))
      ensures f == Alive(Done) ==>
                if old(disk).config.RemovalApplied(d)
                then disk.FullyUnbound(d)
                else disk.config == old(before) && disk.FullyBound(d, marker.issue)
      ensures disk.state.Of(Other(d)) == old(disk).state.Of(Other(d))
              && disk.config.section.Of(Other(d)) == old(disk).config.section.Of(Other(d))
    {
      if !disk.config.RemovalApplied(d) {
        var ok :- RollbackUnbind(d, disk.config, marker, clean);
        return Alive(if ok then Done else Failed);
      }
      var removed :- Store(disk.(state := disk.state.Set(d, None)), clean);
      var activated := Ask(clean);
      if !activated || !removed {
        return Alive(Failed);
      }
      f := FinishForward(d, marker, clean);
    }
  }

  predicate NoTears(tears: seq<bool>) {
    forall i :: 0 <= i < |tears| ==> !tears[i]
  }

  /** Any commands, in any order, with any answers, each of which may die at any of its
      writes; `tears` says in which steps a removal marker's write is torn. What holds
      here holds at every crash point. */
  method Continue(h: Host, tears: seq<bool>)
    requires h.Valid()
    modifies h
    ensures h.Valid() && (NoTears(tears) && old(Recoverable(h.disk)) ==> Recoverable(h.disk))
  {
    for i := 0 to |tears|
      invariant h.Valid() && (NoTears(tears) && old(Recoverable(h.disk)) ==> Recoverable(h.disk))
    {
      var command: nat, d: Domain, replace: bool, n: nat, reply: Reply := *, *, *, *, *;
      if command == 0 {
        var _ := h.Bind(d, replace, n, reply, false);
      } else if command == 1 {
        var _ := h.Unbind(d, n, false, tears[i], 0);
      } else if command == 2 {
        var _ := h.DiscardPending(d, false);
      } else {
        h.AgentRefresh();
      }
    }
  }

  /** Every history from a fresh host. */
  method AnyHistory(tears: seq<bool>) returns (h: Host)
    ensures fresh(h) && h.Valid()
    ensures Resolve(h.disk).Ok? ==>
              forall d :: Resolve(h.disk).value.Of(d).Some? ==>
                h.disk.config.section.Of(d) == h.disk.state.Of(d) == Resolve(h.disk).value.Of(d)
    ensures Count(h.disk.commit.website.Some?) + Count(h.disk.commit.monitoring.Some?)
            + Count(h.disk.unbind.website.Some?) + Count(h.disk.unbind.monitoring.Some?) <= 1
    ensures NoTears(tears) ==> Recoverable(h.disk)
  {
    h := new Host();
    Continue(h, tears);
    AtMostOneInFlight(h.disk, h.before);
    if Resolve(h.disk).Ok? {
      forall d | Resolve(h.disk).value.Of(d).Some?
        ensures h.disk.config.section.Of(d) == h.disk.state.Of(d) == Resolve(h.disk).value.Of(d)
      {
        ResolveIsConsistent(h.disk, h.before, d);
      }
    }
  }

  /** After any history, whether or not markers were torn in it, the removals that
      follow are recoverable again once no removal is in flight. */
  method TearsAreForgotten(tears: seq<bool>, later: seq<bool>) returns (h: Host, quiet: bool)
    ensures fresh(h) && h.Valid()
    ensures quiet && NoTears(later) ==> Recoverable(h.disk)
  {
    h := AnyHistory(tears);
    quiet := h.disk.unbind == Each(None, None);
    Continue(h, later);
  }

  /** After any history, one unbind without faults resolves an unfinished removal: the
      domain ends bound exactly as before or fully unbound. It does so for every
      history without a torn marker, and otherwise if and only if the preimage is left. */
  method UnbindRecovers(tears: seq<bool>, d: Domain, backup: nat) returns (h: Host, crashed: Disk, f: Fate<Exit>)
    ensures fresh(h) && h.Valid()
    ensures NoTears(tears) ==> HasPreimage(crashed, d)
    ensures crashed.unbind.Of(d).Some? ==> (f == Alive(Done) <==> HasPreimage(crashed, d))
    ensures crashed.unbind.Of(d).Some? && f == Alive(Done) ==>
              h.disk.FullyUnbound(d) || h.disk.FullyBound(d, crashed.unbind.Of(d).value.issue)
  {
    h := AnyHistory(tears);
    crashed := h.disk;
    f := h.Unbind(d, backup, true, false, 0);
  }
}

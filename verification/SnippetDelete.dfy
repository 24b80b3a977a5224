/** Deleting a cloud-init snippet that one guest's network component names:
    detach it, prove that nothing else names it, delete it, and be able to
    resume after any crash. */
module SnippetDelete {
  import opened Common
  import opened Text
  import CiCustom

  datatype Resource = Resource(kind: string, node: string, vmid: int)

  datatype Conf = Conf(linux: bool, cicustom: string)

  /** The components a reader sees; an unreadable value counts as absent. */
  function Custom(c: Conf): Result<map<string, string>> {
    CiCustom.Parse(if Readable(c.cicustom, 4096) then c.cicustom else "")
  }

  /** An unreadable value can hide a reference, but never one that would parse. */
  lemma HiddenTextDoesNotParse(c: Conf)
    ensures CiCustom.Parse(c.cicustom).Ok? ==> Custom(c) == CiCustom.Parse(c.cicustom)
  {
    if CiCustom.Parse(c.cicustom).Ok? {
      CiCustom.ParsedIsReadable(c.cicustom);
    }
  }

  /** One guest as a scan read it. */
  datatype Sighting = Sighting(resource: Resource, custom: map<string, string>)

  predicate Listable(r: Resource) {
    (r.kind == "qemu" || r.kind == "lxc") && CiCustom.NodeName(r.node) && r.vmid >= 1
  }

  /** A component may name the volume only if it is the target's network component
      and that one is expected; and if it is expected it must be there. */
  predicate Allowed(m: map<string, string>, volume: string, isTarget: bool, expected: bool) {
    && (forall k :: k in m && m[k] == volume ==> isTarget && expected && k == "network")
    && (isTarget && expected ==> "network" in m && m["network"] == volume)
  }

  predicate SameGuest(a: Resource, b: Resource) {
    a.kind == b.kind && a.vmid == b.vmid
  }

  predicate NoneTwice(seen: seq<Sighting>) {
    forall i, j :: 0 <= i < j < |seen| ==> !SameGuest(seen[i].resource, seen[j].resource)
  }

  /** The scan covered the target, no guest twice, and found only allowed references. */
  predicate Accepts(seen: seq<Sighting>, target: Resource, volume: string, expected: bool) {
    && HasTarget(seen, target)
    && NoneTwice(seen)
    && (forall s :: s in seen ==> Listable(s.resource) && Allowed(s.custom, volume, s.resource == target, expected))
  }

  ghost predicate AllParse(listing: seq<Resource>, configs: map<Resource, Conf>) {
    forall r :: r in listing ==> r in configs && Custom(configs[r]).Ok?
  }

  /** What a scan of the unchanging cluster would see. */
  ghost function Truth(listing: seq<Resource>, configs: map<Resource, Conf>): (seen: seq<Sighting>)
    requires AllParse(listing, configs)
    ensures |seen| == |listing|
    ensures forall i :: 0 <= i < |listing| ==> seen[i] == Sighting(listing[i], Custom(configs[listing[i]]).value)
  {
    seq(|listing|, i requires 0 <= i < |listing| => Sighting(listing[i], Custom(configs[listing[i]]).value))
  }

  /** Look at every component of one guest. */
  method CheckComponents(m: map<string, string>, volume: string, isTarget: bool, expected: bool) returns (ok: bool)
    ensures ok <==> Allowed(m, volume, isTarget, expected)
  {
    var todo, networkSeen := m.Keys, false;
    while todo != {}
      invariant todo <= m.Keys
      invariant forall k :: k in m && k !in todo && m[k] == volume ==> isTarget && expected && k == "network"
      invariant networkSeen <==> isTarget && "network" in m && "network" !in todo && m["network"] == volume
      decreases |todo|
    {
      var k :| k in todo;
      todo := todo - {k};
      if m[k] == volume {
        if isTarget && k == "network" {
          networkSeen := true;
          if !expected {
            return false;
          }
        } else {
          return false;
        }
      }
    }
    return !(isTarget && expected && !networkSeen);
  }

  // ------------------------------------------------------------ Scanning so far

  function KeysOf(seen: seq<Sighting>): set<(string, int)> {
    set s | s in seen :: (s.resource.kind, s.resource.vmid)
  }

  predicate HasTarget(seen: seq<Sighting>, target: Resource) {
    exists s :: s in seen && s.resource == target
  }

  predicate SoFar(seen: seq<Sighting>, target: Resource, volume: string, expected: bool) {
    seen != [] ==>
      var last, before := seen[|seen| - 1], seen[..|seen| - 1];
      && SoFar(before, target, volume, expected)
      && Listable(last.resource) && Allowed(last.custom, volume, last.resource == target, expected)
      && (last.resource.kind, last.resource.vmid) !in KeysOf(before)
  }

  lemma {:induction false} SoFarAccepts(seen: seq<Sighting>, target: Resource, volume: string, expected: bool)
    requires SoFar(seen, target, volume, expected)
    ensures NoneTwice(seen)
    ensures forall s :: s in seen ==> Listable(s.resource) && Allowed(s.custom, volume, s.resource == target, expected)
  {
    if seen != [] {
      var n := |seen| - 1;
      SoFarAccepts(seen[..n], target, volume, expected);
      assert seen == seen[..n] + [seen[n]];
      forall i | 0 <= i < n ensures !SameGuest(seen[i].resource, seen[n].resource) {
        assert seen[i] in seen[..n];
      }
    }
  }

  ghost predicate SeenTruly(seen: seq<Sighting>, listing: seq<Resource>, configs: map<Resource, Conf>) {
    && |seen| <= |listing|
    && (forall j :: 0 <= j < |seen| ==>
          && seen[j].resource == listing[j] && listing[j] in configs
          && Custom(configs[listing[j]]) == Ok(seen[j].custom))
  }

  lemma Extend(seen: seq<Sighting>, s: Sighting, target: Resource, volume: string, expected: bool)
    requires SoFar(seen, target, volume, expected) && Listable(s.resource)
    requires Allowed(s.custom, volume, s.resource == target, expected)
    requires (s.resource.kind, s.resource.vmid) !in KeysOf(seen)
    ensures SoFar(seen + [s], target, volume, expected)
  {
    assert (seen + [s])[..|seen|] == seen;
  }

  lemma ExtendKeys(seen: seq<Sighting>, s: Sighting, target: Resource)
    ensures KeysOf(seen + [s]) == KeysOf(seen) + {(s.resource.kind, s.resource.vmid)}
    ensures HasTarget(seen + [s], target) <==> HasTarget(seen, target) || s.resource == target
  {
    if s.resource == target {
      assert s in seen + [s];
    } else if HasTarget(seen, target) {
      var t :| t in seen && t.resource == target;
      assert t in seen + [s];
    }
  }

  lemma ExtendTruly(seen: seq<Sighting>, s: Sighting, listing: seq<Resource>, configs: map<Resource, Conf>)
    requires SeenTruly(seen, listing, configs) && |seen| < |listing| && listing[|seen|] == s.resource
    requires s.resource in configs && Custom(configs[s.resource]) == Ok(s.custom)
    ensures SeenTruly(seen + [s], listing, configs)
  {
  }

  lemma SeenAll(seen: seq<Sighting>, listing: seq<Resource>, configs: map<Resource, Conf>)
    requires SeenTruly(seen, listing, configs) && |seen| == |listing|
    ensures AllParse(listing, configs) && Truth(listing, configs) == seen
  {
    forall r | r in listing ensures r in configs && Custom(configs[r]).Ok? {
      var j :| 0 <= j < |listing| && listing[j] == r;
      assert seen[j].resource == listing[j];
    }
  }

  /** A guest seen twice is there twice. */
  lemma Duplicate(seen: seq<Sighting>, listing: seq<Resource>, configs: map<Resource, Conf>, target: Resource, volume: string, expected: bool)
    requires SeenTruly(seen, listing, configs) && |seen| < |listing|
    requires AllParse(listing, configs) && (listing[|seen|].kind, listing[|seen|].vmid) in KeysOf(seen)
    ensures !Accepts(Truth(listing, configs), target, volume, expected)
  {
    var s :| s in seen && (s.resource.kind, s.resource.vmid) == (listing[|seen|].kind, listing[|seen|].vmid);
    var j :| 0 <= j < |seen| && seen[j] == s;
    assert SameGuest(Truth(listing, configs)[j].resource, Truth(listing, configs)[|seen|].resource);
  }

  lemma NotAllowed(listing: seq<Resource>, configs: map<Resource, Conf>, i: nat, target: Resource, volume: string, expected: bool)
    requires i < |listing| && AllParse(listing, configs)
    requires Listable(listing[i]) ==>
               !Allowed(Custom(configs[listing[i]]).value, volume, listing[i] == target, expected)
    ensures !Accepts(Truth(listing, configs), target, volume, expected)
  {
    assert Truth(listing, configs)[i] in Truth(listing, configs);
  }

  lemma AllowedDetached(m: map<string, string>, volume: string)
    requires Allowed(m, volume, true, true)
    ensures Allowed(m - {"network"}, volume, true, false)
  {
  }

  lemma AllowedElsewhere(m: map<string, string>, volume: string)
    requires Allowed(m, volume, false, true)
    ensures Allowed(m, volume, false, false)
  {
  }

  lemma DetachedSighting(listing: seq<Resource>, configs: map<Resource, Conf>, target: Resource, volume: string,
                         m: map<string, string>, next: Conf, i: nat)
    requires AllParse(listing, configs) && Accepts(Truth(listing, configs), target, volume, true) && i < |listing|
    requires target in configs && Custom(configs[target]) == Ok(m) && Custom(next) == Ok(m - {"network"})
    ensures AllParse(listing, configs[target := next])
    ensures var now := Truth(listing, configs[target := next]);
            Listable(now[i].resource) && Allowed(now[i].custom, volume, now[i].resource == target, false)
  {
    var was := Truth(listing, configs);
    assert was[i] in was;
    if listing[i] == target {
      AllowedDetached(m, volume);
    } else {
      AllowedElsewhere(was[i].custom, volume);
    }
  }

  /** Removing the target's network component turns the only allowed reference into none. */
  lemma DetachAccepts(listing: seq<Resource>, configs: map<Resource, Conf>, target: Resource, volume: string,
                      m: map<string, string>, next: Conf)
    requires AllParse(listing, configs) && Accepts(Truth(listing, configs), target, volume, true)
    requires target in configs && Custom(configs[target]) == Ok(m) && Custom(next) == Ok(m - {"network"})
    ensures AllParse(listing, configs[target := next])
    ensures Accepts(Truth(listing, configs[target := next]), target, volume, false)
  {
    var was, now := Truth(listing, configs), Truth(listing, configs[target := next]);
    SameResources(was, now, target);
    forall s | s in now ensures Listable(s.resource) && Allowed(s.custom, volume, s.resource == target, false) {
      var i :| 0 <= i < |now| && now[i] == s;
      DetachedSighting(listing, configs, target, volume, m, next, i);
    }
  }

  lemma SameResources(a: seq<Sighting>, b: seq<Sighting>, target: Resource)
    requires |a| == |b| && forall i :: 0 <= i < |a| ==> a[i].resource == b[i].resource
    requires NoneTwice(a) && HasTarget(a, target)
    ensures NoneTwice(b) && HasTarget(b, target)
  {
    var t :| t in a && t.resource == target;
    var j :| 0 <= j < |a| && a[j] == t;
    assert b[j] in b && b[j].resource == target;
    forall i, k | 0 <= i < k < |b| ensures !SameGuest(b[i].resource, b[k].resource) {
      assert !SameGuest(a[i].resource, a[k].resource);
    }
  }

  // ---------------------------------------------------------- What a run has done

  /** The calls of a run, in order: the cluster's listing, one guest's configuration,
      storage's inventory, and the two requests that change something. */
  datatype Event =
    | Listed(rs: seq<Resource>) | Looked(resource: Resource, conf: Option<Conf>) | Storage(present: Option<bool>)
    | Put(was: Conf, text: string) | Delete

  predicate Entry(e: Event, s: Sighting) {
    e.Looked? && e.conf.Some? && e.resource == s.resource && Custom(e.conf.value) == Ok(s.custom)
  }

  /** The calls are one listing and then one successful read of each of its first
      guests, which showed the sightings. */
  predicate Recorded(block: seq<Event>, rs: seq<Resource>, seen: seq<Sighting>) {
    && |seen| <= |rs| && |block| == |seen| + 1 && block[0] == Listed(rs)
    && forall i :: 0 <= i < |seen| ==> seen[i].resource == rs[i] && Entry(block[i + 1], seen[i])
  }

  /** The calls are one whole scan, and what it read is acceptable. */
  ghost predicate Scanned(block: seq<Event>, target: Resource, volume: string, expected: bool) {
    exists rs, seen :: Recorded(block, rs, seen) && |seen| == |rs| && Accepts(seen, target, volume, expected)
  }

  /** The last calls were such a scan. */
  ghost predicate AfterScan(calls: seq<Event>, target: Resource, volume: string, expected: bool) {
    exists k :: 0 <= k <= |calls| && Scanned(calls[k..], target, volume, expected)
  }

  lemma RecordedMore(block: seq<Event>, rs: seq<Resource>, seen: seq<Sighting>, c: Conf, m: map<string, string>)
    requires Recorded(block, rs, seen) && |seen| < |rs| && Custom(c) == Ok(m)
    ensures Recorded(block + [Looked(rs[|seen|], Some(c))], rs, seen + [Sighting(rs[|seen|], m)])
  {
  }

  /** How far a scan has come, and what it remembers. */
  ghost predicate Progress(block: seq<Event>, rs: seq<Resource>, seen: seq<Sighting>, keys: set<(string, int)>, targetSeen: bool,
                           target: Resource, volume: string, expected: bool)
  {
    && Recorded(block, rs, seen) && SoFar(seen, target, volume, expected)
    && keys == KeysOf(seen) && (targetSeen <==> HasTarget(seen, target))
  }

  lemma Progressed(block: seq<Event>, rs: seq<Resource>, seen: seq<Sighting>, keys: set<(string, int)>, targetSeen: bool,
                   target: Resource, volume: string, expected: bool, c: Conf, m: map<string, string>)
    requires Progress(block, rs, seen, keys, targetSeen, target, volume, expected) && |seen| < |rs| && Custom(c) == Ok(m)
    requires SoFar(seen + [Sighting(rs[|seen|], m)], target, volume, expected)
    ensures var r := rs[|seen|];
            Progress(block + [Looked(r, Some(c))], rs, seen + [Sighting(r, m)], keys + {(r.kind, r.vmid)},
                     targetSeen || r == target, target, volume, expected)
  {
    RecordedMore(block, rs, seen, c, m);
    ExtendKeys(seen, Sighting(rs[|seen|], m), target);
  }

  lemma ScanDone(block: seq<Event>, rs: seq<Resource>, seen: seq<Sighting>, keys: set<(string, int)>, targetSeen: bool,
                 target: Resource, volume: string, expected: bool)
    requires Progress(block, rs, seen, keys, targetSeen, target, volume, expected) && |seen| == |rs|
    ensures targetSeen <==> Accepts(seen, target, volume, expected)
    ensures targetSeen ==> Scanned(block, target, volume, expected)
  {
    SoFarAccepts(seen, target, volume, expected);
  }

  /** The text written is the read configuration's without its network component. */
  predicate Detaches(before: seq<Event>, target: Resource, conf: Conf, text: string) {
    && Looked(target, Some(conf)) in before && conf.linux && Custom(conf).Ok?
    && CiCustom.Parse(text) == Ok(Custom(conf).value - {"network"})
  }

  /** A detach directly follows a scan in which the target's network component was the
      sole reference; a delete directly follows a scan without any reference and an
      inventory that showed the volume. */
  ghost predicate Justified(before: seq<Event>, e: Event, target: Resource, volume: string) {
    match e
    case Put(conf, text) =>
      Detaches(before, target, conf, text) && AfterScan(before, target, volume, true)
    case Delete =>
      && before != [] && before[|before| - 1] == Storage(Some(true))
      && AfterScan(before[..|before| - 1], target, volume, false)
    case _ => true
  }

  ghost predicate Careful(log: seq<Event>, target: Resource, volume: string) {
    log != [] ==>
      Careful(log[..|log| - 1], target, volume) && Justified(log[..|log| - 1], log[|log| - 1], target, volume)
  }

  lemma CarefulMore(log: seq<Event>, e: Event, target: Resource, volume: string)
    requires Careful(log, target, volume) && Justified(log, e, target, volume)
    ensures Careful(log + [e], target, volume)
  {
    assert (log + [e])[..|log|] == log;
  }

  const NEW := 0
  const VALIDATED := 1
  const REFERENCE_PROVEN := 2
  const DETACHED := 3
  const DELETE_SUBMITTED := 4
  const DELETED := 5
  const VERIFIED := 6
  const SUCCEEDED := 7

  datatype Outcome = Finished(alreadyAbsent: bool) | Submitted | Failed

  datatype DeleteReply = Gone | Task | Refused

  /** The cluster and the command's durable phase. Unless `quiet`, others may change
      guests and storage between any two calls. */
  class Cluster {
    const target: Resource
    const volume: string
    const quiet: bool
    var listing: seq<Resource>
    var configs: map<Resource, Conf>
    var stored: bool
    var phase: nat
    /** Every call made so far. */
    ghost var log: seq<Event>

    /** Nothing was ever changed without the scan that allows it. */
    ghost predicate Justly()
      reads this
    {
      Careful(log, target, volume)
    }

    constructor (t: Resource, v: string, q: bool, l: seq<Resource>, c: map<Resource, Conf>, s: bool)
      ensures target == t && volume == v && quiet == q && listing == l && configs == c && stored == s && phase == NEW
      ensures Justly() && log == []
    {
      target, volume, quiet, listing, configs, stored, phase := t, v, q, l, c, s, NEW;
      log := [];
    }

    /** Others act, if there are others. */
    method Interfere()
      modifies this`listing, this`configs, this`stored
      ensures quiet ==> listing == old(listing) && configs == old(configs) && stored == old(stored)
    {
      if !quiet {
        listing, configs, stored := *, *, *;
      }
    }

    method Ask(clean: bool) returns (ok: bool)
      ensures clean ==> ok
    {
      ok := *;
      ok := ok || clean;
    }

    /** An answer is the truth at the moment of the call. */
    ghost predicate Truthful(e: Event)
      reads this
    {
      match e
      case Listed(rs) => rs == listing
      case Looked(r, c) => c.Some? ==> r in configs && configs[r] == c.value
      case Storage(p) => p.Some? ==> p.value == stored
      case _ => true
    }

    /** Add a call to the log: answers must be true, requests must be justified. */
    ghost method Note(e: Event)
      requires Justly() && Truthful(e) && Justified(log, e, target, volume)
      modifies this`log
      ensures Justly() && log == old(log) + [e]
    {
      CarefulMore(log, e, target, volume);
      log := log + [e];
    }

    method Read(r: Resource, clean: bool) returns (c: Option<Conf>)
      requires Justly()
      modifies this`log
      ensures Justly() && log == old(log) + [Looked(r, c)]
      ensures c.Some? ==> r in configs && configs[r] == c.value
      ensures clean && r in configs ==> c.Some?
    {
      var fails: bool := *;
      c := if r in configs && (clean || !fails) then Some(configs[r]) else None;
      Note(Looked(r, c));
    }

    ghost predicate Reads(r: Resource, expected: bool)
      reads this
    {
      && r in configs && Custom(configs[r]).Ok?
      && Allowed(Custom(configs[r]).value, volume, r == target, expected)
    }

    /** Read one listed guest and check what it names. */
    method Look(r: Resource, expected: bool, clean: bool) returns (m: Option<map<string, string>>)
      requires Justly()
      modifies this`log
      ensures Justly() && old(log) <= log
      ensures m.Some? ==> r in configs && log == old(log) + [Looked(r, Some(configs[r]))]
      ensures m.Some? ==> Listable(r) && Allowed(m.value, volume, r == target, expected)
      ensures m.Some? ==> r in configs && Custom(configs[r]) == Ok(m.value)
      ensures clean && Listable(r) && Reads(r, expected) ==> m.Some?
    {
      if !Listable(r) {
        return None;
      }
      var c := Read(r, clean);
      if c == None {
        return None;
      }
      var custom := CiCustom.ParseText(if Readable(c.value.cicustom, 4096) then c.value.cicustom else "");
      if custom.Err? {
        return None;
      }
      var ok := CheckComponents(custom.value, volume, r == target, expected);
      return if ok then Some(custom.value) else None;
    }

    /** The cluster, if nobody else acts, is one this scan accepts. */
    ghost predicate ScanHolds(expected: bool)
      reads this
    {
      AllParse(listing, configs) && Accepts(Truth(listing, configs), target, volume, expected)
    }

    /** The next listed guest of a scan: not met before, readable and allowed. */
    method Next(r: Resource, keys: set<(string, int)>, expected: bool, clean: bool, ghost seen: seq<Sighting>)
      returns (m: Option<map<string, string>>)
      requires Justly() && SoFar(seen, target, volume, expected) && keys == KeysOf(seen)
      modifies this`log
      ensures Justly() && old(log) <= log
      ensures m.Some? ==> r in configs && Custom(configs[r]) == Ok(m.value) && log == old(log) + [Looked(r, Some(configs[r]))]
      requires quiet ==> SeenTruly(seen, listing, configs) && |seen| < |listing| && listing[|seen|] == r
      ensures m.Some? ==> SoFar(seen + [Sighting(r, m.value)], target, volume, expected)
      ensures m.Some? && quiet ==> SeenTruly(seen + [Sighting(r, m.value)], listing, configs)
      ensures m == None && clean && quiet ==> !ScanHolds(expected)
    {
      if (r.kind, r.vmid) in keys {
        if quiet && AllParse(listing, configs) {
          Duplicate(seen, listing, configs, target, volume, expected);
        }
        return None;
      }
      m := Look(r, expected, clean);
      if m == None {
        if clean && quiet && AllParse(listing, configs) {
          assert r in listing;
          NotAllowed(listing, configs, |seen|, target, volume, expected);
        }
      } else {
        Extend(seen, Sighting(r, m.value), target, volume, expected);
        if quiet {
          ExtendTruly(seen, Sighting(r, m.value), listing, configs);
        }
      }
    }

    /** Scan the whole cluster for references to the volume: the calls it made are one
        listing and one read per listed guest. */
    method Scan(expected: bool, clean: bool) returns (ok: bool)
      requires Justly()
      modifies this`listing, this`configs, this`stored, this`log
      ensures Justly() && old(log) <= log
      ensures quiet ==> listing == old(listing) && configs == old(configs) && stored == old(stored)
      ensures ok ==> Scanned(log[|old(log)|..], target, volume, expected)
      ensures ok && quiet ==> ScanHolds(expected)
      ensures clean && quiet && ScanHolds(expected) ==> ok
    {
      Interfere();
      var permitted := Ask(clean);
      var rs := listing;
      if !permitted || rs == [] {
        return false;
      }
      ok := ReadAll(rs, expected, clean);
    }

    /** One listed guest of a scan. */
    method Visit(rs: seq<Resource>, i: nat, keys: set<(string, int)>, targetSeen: bool, expected: bool, clean: bool,
                 ghost block: seq<Event>, ghost seen: seq<Sighting>)
      returns (more: bool, ghost longer: seq<Event>, ghost also: seq<Sighting>)
      requires Justly() && i == |seen| < |rs| && Progress(block, rs, seen, keys, targetSeen, target, volume, expected)
      requires quiet ==> rs == listing && SeenTruly(seen, rs, configs)
      modifies this`listing, this`configs, this`stored, this`log
      ensures Justly() && old(log) <= log
      ensures quiet ==> listing == old(listing) && configs == old(configs) && stored == old(stored)
      ensures more ==> block <= longer && log == old(log) + longer[|block|..] && |also| == i + 1
      ensures more ==> Progress(longer, rs, also, keys + {(rs[i].kind, rs[i].vmid)}, targetSeen || rs[i] == target, target, volume, expected)
      ensures more && quiet ==> SeenTruly(also, rs, configs)
      ensures !more && clean && quiet ==> !ScanHolds(expected)
    {
      var m := Next(rs[i], keys, expected, clean, seen);
      if m == None {
        return false, block, seen;
      }
      Progressed(block, rs, seen, keys, targetSeen, target, volume, expected, configs[rs[i]], m.value);
      longer, also := block + [Looked(rs[i], Some(configs[rs[i]]))], seen + [Sighting(rs[i], m.value)];
      more := true;
      Interfere();
    }

    /** The listed guests, one after the other. */
    method ReadAll(rs: seq<Resource>, expected: bool, clean: bool) returns (ok: bool)
      requires Justly() && rs == listing
      modifies this`listing, this`configs, this`stored, this`log
      ensures Justly() && old(log) <= log
      ensures quiet ==> listing == old(listing) && configs == old(configs) && stored == old(stored)
      ensures ok ==> Scanned(log[|old(log)|..], target, volume, expected)
      ensures ok && quiet ==> ScanHolds(expected)
      ensures clean && quiet && ScanHolds(expected) ==> ok
    {
      Note(Listed(rs));
      ghost var seen: seq<Sighting>, block: seq<Event> := [], [Listed(rs)];
      var keys: set<(string, int)>, targetSeen := {}, false;
      for i := 0 to |rs|
        invariant Justly() && log == old(log) + block
        invariant quiet ==> listing == old(listing) && configs == old(configs) && stored == old(stored)
        invariant |seen| == i && Progress(block, rs, seen, keys, targetSeen, target, volume, expected)
        invariant quiet ==> SeenTruly(seen, rs, configs)
      {
        var more;
        more, block, seen := Visit(rs, i, keys, targetSeen, expected, clean, block, seen);
        if !more {
          return false;
        }
        keys, targetSeen := keys + {(rs[i].kind, rs[i].vmid)}, targetSeen || rs[i] == target;
      }
      assert log[|old(log)|..] == block;
      ScanDone(block, rs, seen, keys, targetSeen, target, volume, expected);
      if quiet {
        SeenAll(seen, rs, configs);
      }
      ok := targetSeen;
    }

    // --------------------------------------------------------- Requests and phases

    /** Replace the target's text, refused unless its configuration is still the one
        that was read. Sent only when the scan saw the target's network component as
        the sole reference. */
    method SendDetach(conf: Conf, text: string, clean: bool) returns (f: Fate<bool>)
      requires Justly() && Detaches(log, target, conf, text) && AfterScan(log, target, volume, true)
      modifies this`listing, this`configs, this`stored, this`log
      ensures Justly() && log == old(log) + [Put(conf, text)]
      ensures quiet ==> listing == old(listing) && stored == old(stored)
      ensures quiet && configs != old(configs) ==> target in old(configs) && old(configs)[target] == conf
      ensures quiet && configs != old(configs) ==> configs == old(configs)[target := conf.(cicustom := text)]
      ensures quiet && f == Alive(true) ==> target in old(configs) && configs == old(configs)[target := conf.(cicustom := text)]
      ensures clean && quiet && target in old(configs) && old(configs)[target] == conf ==> f == Alive(true)
    {
      Note(Put(conf, text));
      Interfere();
      if target !in configs || configs[target] != conf {
        return Alive(false);
      }
      var applied: bool, reported: bool, died: bool := *, *, *;
      if applied || reported || clean {
        configs := configs[target := conf.(cicustom := text)];
      }
      f := if clean then Alive(true) else if died then Died else Alive(reported);
    }

    /** Ask storage to delete the volume, only after a scan saw no reference. */
    method SendDelete(clean: bool) returns (f: Fate<DeleteReply>)
      requires Justly() && (quiet ==> ScanHolds(false))
      requires log != [] && log[|log| - 1] == Storage(Some(true)) && AfterScan(log[..|log| - 1], target, volume, false)
      modifies this`listing, this`configs, this`stored, this`log
      ensures Justly() && log == old(log) + [Delete]
      ensures quiet ==> listing == old(listing) && configs == old(configs) && (stored ==> old(stored))
      ensures quiet && f == Alive(Gone) ==> !stored
      ensures clean ==> f == Alive(Gone)
    {
      Note(Delete);
      Interfere();
      var applied: bool, reply: DeleteReply, died: bool := *, *, *;
      if applied || reply == Gone || clean {
        stored := false;
      }
      f := if clean then Alive(Gone) else if died then Died else Alive(reply);
    }

    /** Record a phase; never one below the recorded phase. */
    method Advance(next: nat, clean: bool) returns (f: Fate<bool>)
      requires phase <= next <= VERIFIED
      modifies this`phase
      ensures phase == old(phase) || phase == next
      ensures f == Alive(true) ==> phase == next
      ensures clean ==> f == Alive(true)
    {
      var applied: bool, reported: bool, died: bool := *, *, *;
      if applied || reported || clean {
        phase := next;
      }
      f := if clean then Alive(true) else if died then Died else Alive(reported);
    }

    /** Whether storage lists the volume. */
    method Present(clean: bool) returns (p: Option<bool>)
      requires Justly()
      modifies this`listing, this`configs, this`stored, this`log
      ensures Justly() && log == old(log) + [Storage(p)]
      ensures quiet ==> listing == old(listing) && configs == old(configs) && stored == old(stored)
      ensures p.Some? ==> p.value == stored
      ensures clean ==> p.Some?
    {
      Interfere();
      var fails: bool := *;
      p := if clean || !fails then Some(stored) else None;
      Note(Storage(p));
    }

    // ------------------------------------------------------------- Crash recovery

    ghost predicate NetworkGone()
      reads this
    {
      target in configs && Custom(configs[target]).Ok? && "network" !in Custom(configs[target]).value
    }

    /** What is true at every crash point when nobody else acts. */
    ghost predicate Steady()
      reads this
    {
      && target in configs && configs[target].linux && phase <= VERIFIED
      && target in listing && AllParse(listing, configs)
      && (phase < REFERENCE_PROVEN ==> ScanHolds(true))
      && (phase == REFERENCE_PROVEN ==> ScanHolds(true) || (ScanHolds(false) && NetworkGone()))
      && (phase >= DETACHED ==> ScanHolds(false) && NetworkGone())
      && (phase >= DELETED ==> !stored)
    }

    /** The target's configuration names the volume. */
    ghost predicate Names(c: map<Resource, Conf>, r: Resource)
    {
      r in c && Custom(c[r]).Ok? && volume in Custom(c[r]).value.Values
    }

    /** The last two calls read the target, which named the volume nowhere, and storage,
        which no longer had it. */
    ghost predicate Absent(calls: seq<Event>)
    {
      && |calls| >= 2 && calls[|calls| - 1] == Storage(Some(false))
      && var read := calls[|calls| - 2];
      && read.Looked? && read.resource == target && read.conf.Some?
      && Custom(read.conf.value).Ok? && volume !in Custom(read.conf.value).value.Values
    }

    /** Read the target back: no component and no stored volume is left. */
    method Recover(alreadyAbsent: bool, clean: bool) returns (f: Fate<Outcome>)
      requires DELETED <= phase <= VERIFIED
      requires Justly()
      modifies this`listing, this`configs, this`stored, this`phase, this`log
      ensures Justly() && old(log) <= log
      ensures old(phase) <= phase <= VERIFIED
      ensures quiet ==> listing == old(listing) && configs == old(configs) && stored == old(stored)
      ensures f == Alive(Finished(alreadyAbsent)) || f == Alive(Failed) || f == Died
      ensures f == Alive(Finished(alreadyAbsent)) ==> phase == VERIFIED
      ensures f == Alive(Finished(alreadyAbsent)) ==> Absent(log)
      ensures quiet && f == Alive(Finished(alreadyAbsent)) ==> !stored && !Names(configs, target)
      ensures clean && quiet && old(Steady()) ==> f == Alive(Finished(alreadyAbsent))
    {
      Interfere();
      var c := Read(target, clean);
      if c == None || Custom(c.value).Err? {
        return Alive(Failed);
      }
      if volume in Custom(c.value).value.Values {
        return Alive(Failed);
      }
      var present := Present(clean);
      if present != Some(false) {
        return Alive(Failed);
      }
      var verified :- Advance(VERIFIED, clean);
      return Alive(if verified then Finished(alreadyAbsent) else Failed);
    }

    /** The component map's network volume, or nothing. */
    function NetworkOf(m: map<string, string>): string
    {
      if "network" in m then m["network"] else ""
    }

    /** The target does not name what the command's phase says it must. */
    ghost predicate Mismatched(p: nat, c: map<Resource, Conf>)
    {
      && target in c && Custom(c[target]).Ok?
      && var network := NetworkOf(Custom(c[target]).value);
      if p < REFERENCE_PROVEN then network != volume
      else if p == REFERENCE_PROVEN then network != volume && network != ""
      else network != ""
    }

    /** Bring the command to the detached phase: detach, or recognise that a crashed
        run had already detached. */
    method Detach(conf: Conf, m: map<string, string>, clean: bool) returns (f: Fate<bool>)
      requires VALIDATED <= phase < DETACHED && volume != ""
      requires conf.linux && Custom(conf) == Ok(m) && CiCustom.ValidCustom(m, CiCustom.KEYS, CiCustom.ValidVolume)
      requires quiet ==> target in configs && configs[target] == conf
      requires Justly() && Looked(target, Some(conf)) in log
      modifies this`listing, this`configs, this`stored, this`phase, this`log
      ensures Justly() && old(log) <= log
      ensures old(phase) <= phase <= DETACHED
      ensures f == Alive(true) ==> phase == DETACHED
      ensures quiet ==> stored == old(stored)
      ensures quiet && old(Steady()) ==> Steady()
      ensures clean && quiet && old(Steady()) ==> f == Alive(true)
      ensures NetworkOf(m) != volume && (old(phase) != REFERENCE_PROVEN || NetworkOf(m) != "") ==>
                f == Alive(false) && phase == old(phase) && log == old(log) && configs == old(configs) && stored == old(stored)
    {
      var network := NetworkOf(m);
      if network != volume {
        if phase != REFERENCE_PROVEN || network != "" {
          return Alive(false);
        }
        var unreferenced := Scan(false, clean);
        if !unreferenced {
          return Alive(false);
        }
        f := Advance(DETACHED, clean);
        return;
      }
      f := DetachAttached(conf, m, clean);
    }

    method DetachAttached(conf: Conf, m: map<string, string>, clean: bool) returns (f: Fate<bool>)
      requires VALIDATED <= phase < DETACHED
      requires conf.linux && Custom(conf) == Ok(m) && CiCustom.ValidCustom(m, CiCustom.KEYS, CiCustom.ValidVolume)
      requires "network" in m && m["network"] == volume
      requires quiet ==> target in configs && configs[target] == conf
      requires Justly() && Looked(target, Some(conf)) in log
      modifies this`listing, this`configs, this`stored, this`phase, this`log
      ensures Justly() && old(log) <= log
      ensures old(phase) <= phase <= DETACHED
      ensures f == Alive(true) ==> phase == DETACHED
      ensures quiet ==> stored == old(stored)
      ensures quiet && old(Steady()) ==> Steady()
      ensures clean && quiet && old(Steady()) ==> f == Alive(true)
    {
      var sole := Scan(true, clean);
      if !sole {
        return Alive(false);
      }
      var proven :- Advance(REFERENCE_PROVEN, clean);
      var digestOk := Ask(clean);
      if !proven || !digestOk {
        return Alive(false);
      }
      var text := CiCustom.WithoutNetwork(m);
      HiddenTextDoesNotParse(conf.(cicustom := text));
      if quiet {
        DetachAccepts(listing, configs, target, volume, m, conf.(cicustom := text));
      }
      var sent :- SendDetach(conf, text, clean);
      if !sent {
        return Alive(false);
      }
      f := Advance(DETACHED, clean);
    }

    /** From the detached phase on: prove, delete, verify. */
    method DeleteAndVerify(resumed: bool, clean: bool) returns (f: Fate<Outcome>)
      requires DETACHED <= phase <= VERIFIED
      requires Justly()
      modifies this`listing, this`configs, this`stored, this`phase, this`log
      ensures Justly() && old(log) <= log
      ensures old(phase) <= phase <= VERIFIED
      ensures f.Alive? && f.value.Finished? ==> phase == VERIFIED && Absent(log) && (quiet ==> !stored)
      // "Already absent" is claimed only by a resumed run, and by one only if it had
      // nothing to delete.
      ensures f == Alive(Finished(true)) ==> resumed || old(phase) >= DELETED
      ensures quiet && resumed && f == Alive(Finished(false)) ==> old(stored) && old(phase) < DELETED
      ensures quiet && old(Steady()) ==> Steady()
      ensures clean && quiet && old(Steady()) ==> f.Alive? && f.value.Finished?
    {
      if phase >= DELETED {
        f := Recover(true, clean);
        return;
      }
      var unreferenced := Scan(false, clean);
      if !unreferenced {
        return Alive(Failed);
      }
      f := RemoveVolume(resumed, clean);
    }

    /** Delete the volume if storage still has it, and verify. */
    method RemoveVolume(resumed: bool, clean: bool) returns (f: Fate<Outcome>)
      requires DETACHED <= phase <= DELETE_SUBMITTED
      requires Justly() && AfterScan(log, target, volume, false) && (quiet ==> ScanHolds(false))
      modifies this`listing, this`configs, this`stored, this`phase, this`log
      ensures Justly() && old(log) <= log
      ensures old(phase) <= phase <= VERIFIED
      ensures f.Alive? && f.value.Finished? ==> phase == VERIFIED && Absent(log) && (quiet ==> !stored)
      ensures f == Alive(Finished(true)) ==> resumed
      ensures quiet && resumed && f == Alive(Finished(false)) ==> old(stored)
      ensures quiet && old(Steady()) ==> Steady()
      ensures clean && quiet && old(Steady()) ==> f.Alive? && f.value.Finished?
    {
      ghost var scanned := log;
      var present := Present(clean);
      if present == None {
        return Alive(Failed);
      }
      assert log[..|log| - 1] == scanned;
      if present.value {
        var reply :- SendDelete(clean);
        if reply != Gone {
          f := NotGone(reply);
          return;
        }
      }
      var recorded :- Advance(DELETED, clean);
      if !recorded {
        return Alive(Failed);
      }
      f := Recover(if present.value then false else resumed, clean);
    }

    /** A delete that runs as a task is recorded for the task's own follow-up. */
    method NotGone(reply: DeleteReply) returns (f: Fate<Outcome>)
      requires DETACHED <= phase <= DELETE_SUBMITTED && reply != Gone
      modifies this`phase
      ensures old(phase) <= phase <= DELETE_SUBMITTED
      ensures f.Alive? ==> !f.value.Finished?
    {
      if reply == Refused || phase != DETACHED {
        return Alive(Failed);
      }
      var recorded :- Advance(DELETE_SUBMITTED, false);
      return Alive(if recorded then Submitted else Failed);
    }

    /** One run of the command, or a re-run after any crash. */
    method Run(clean: bool) returns (f: Fate<Outcome>)
      requires phase < SUCCEEDED
      requires Justly()
      modifies this`listing, this`configs, this`stored, this`phase, this`log
      ensures Justly() && old(log) <= log
      ensures old(phase) <= phase <= VERIFIED
      ensures f.Alive? && f.value.Finished? ==> phase == VERIFIED && Absent(log) && (quiet ==> !stored)
      ensures quiet && old(Steady()) ==> Steady()
      ensures clean && quiet && old(Steady()) && CiCustom.ValidVolume(volume) ==> f.Alive? && f.value.Finished?
      ensures f == Alive(Finished(true)) ==> old(phase) != NEW
      ensures quiet && old(phase) != NEW && f == Alive(Finished(false)) ==> old(stored) && old(phase) < DELETED
      // Nothing is changed for a target that names another volume or none before the
      // reference was ever proven, nor for one that names any after the detach.
      ensures quiet && Mismatched(old(phase), old(configs)) ==>
                (f == Died || f == Alive(Failed)) && configs == old(configs) && stored == old(stored)
    {
      if !CiCustom.ValidVolume(volume) {
        return Alive(Failed);
      }
      var resumed := phase != NEW;
      var begun :- Advance(if resumed then phase else VALIDATED, clean);
      if !begun {
        return Alive(Failed);
      }
      f := Proceed(resumed, clean);
    }

    /** The run proper, once its phase is recorded. */
    method Proceed(resumed: bool, clean: bool) returns (f: Fate<Outcome>)
      requires VALIDATED <= phase <= VERIFIED && volume != "" && Justly()
      modifies this`listing, this`configs, this`stored, this`phase, this`log
      ensures Justly() && old(log) <= log && old(phase) <= phase <= VERIFIED
      ensures f.Alive? && f.value.Finished? ==> phase == VERIFIED && Absent(log) && (quiet ==> !stored)
      ensures quiet && old(Steady()) ==> Steady()
      ensures clean && quiet && old(Steady()) ==> f.Alive? && f.value.Finished?
      ensures f == Alive(Finished(true)) ==> resumed || old(phase) >= DELETED
      ensures quiet && resumed && f == Alive(Finished(false)) ==> old(stored) && old(phase) < DELETED
      ensures quiet && Mismatched(old(phase), old(configs)) ==>
                (f == Died || f == Alive(Failed)) && configs == old(configs) && stored == old(stored)
    {
      var conf, m := ReadTarget(clean);
      if conf == None {
        return Alive(Failed);
      }
      var detached :- BeDetached(conf.value, m, clean);
      if !detached {
        return Alive(Failed);
      }
      f := DeleteAndVerify(resumed, clean);
    }

    /** Detach, unless the recorded phase says that it was done; then nothing may be there. */
    method BeDetached(conf: Conf, m: map<string, string>, clean: bool) returns (f: Fate<bool>)
      requires VALIDATED <= phase <= VERIFIED && volume != "" && Justly() && Looked(target, Some(conf)) in log
      requires conf.linux && Custom(conf) == Ok(m) && CiCustom.ValidCustom(m, CiCustom.KEYS, CiCustom.ValidVolume)
      requires quiet ==> target in configs && configs[target] == conf
      modifies this`listing, this`configs, this`stored, this`phase, this`log
      ensures Justly() && old(log) <= log && old(phase) <= phase <= VERIFIED
      ensures f == Alive(true) ==> phase >= DETACHED && (phase > DETACHED ==> phase == old(phase))
      ensures quiet ==> stored == old(stored)
      ensures quiet && old(Steady()) ==> Steady()
      ensures clean && quiet && old(Steady()) ==> f == Alive(true)
      ensures quiet && Mismatched(old(phase), old(configs)) ==> f == Alive(false) && configs == old(configs)
    {
      if phase < DETACHED {
        f := Detach(conf, m, clean);
        return;
      }
      return Alive(NetworkOf(m) == "");
    }

    /** The target's configuration and its components. */
    method ReadTarget(clean: bool) returns (conf: Option<Conf>, m: map<string, string>)
      requires Justly()
      modifies this`listing, this`configs, this`stored, this`log
      ensures Justly() && old(log) <= log
      ensures quiet ==> listing == old(listing) && configs == old(configs) && stored == old(stored)
      ensures conf.Some? ==> Looked(target, conf) in log && conf.value.linux && Custom(conf.value) == Ok(m)
      ensures conf.Some? ==> CiCustom.ValidCustom(m, CiCustom.KEYS, CiCustom.ValidVolume)
      ensures conf.Some? && quiet ==> target in configs && configs[target] == conf.value
      ensures clean && quiet && target in configs && configs[target].linux && Custom(configs[target]).Ok? ==> conf.Some?
    {
      Interfere();
      m := map[];
      conf := Read(target, clean);
      if conf.Some? {
        var custom := CiCustom.ParseText(if Readable(conf.value.cicustom, 4096) then conf.value.cicustom else "");
        if !conf.value.linux || custom.Err? {
          conf := None;
        } else {
          m := custom.value;
        }
      }
    }
  }

  /** Any number of runs, each of which may fail or die anywhere: with nobody else
      acting, one more run without faults removes the volume. */
  method AnyRuns(target: Resource, volume: string, listing: seq<Resource>, configs: map<Resource, Conf>, runs: nat)
    returns (k: Cluster)
    requires CiCustom.ValidVolume(volume) && AllParse(listing, configs) && target in listing
    requires configs[target].linux && Accepts(Truth(listing, configs), target, volume, true)
    ensures fresh(k) && k.volume == volume && k.target == target
    ensures k.phase == VERIFIED && !k.stored && k.ScanHolds(false) && k.NetworkGone() && k.Justly()
  {
    k := new Cluster(target, volume, true, listing, configs, true);
    for i := 0 to runs
      invariant fresh(k) && k.quiet && k.volume == volume && k.target == target && k.Steady() && k.Justly()
    {
      var _ := k.Run(false);
    }
    var _ := k.Run(true);
  }
}

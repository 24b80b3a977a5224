/** A guest's network interface text: the writer that merges signed settings into
    it and the separate reader that judges it. */
module GuestNetwork {
  import opened Common
  import opened Text
  import opened OptionText

  datatype Kind = Qemu | Lxc

  const MODELS := ["virtio", "e1000", "e1000e", "vmxnet3", "rtl8139"]

  predicate ValidModel(key: string) {
    key in MODELS
  }

  /** A container's interface text has no model entry. */
  function Models(kind: Kind): seq<string> {
    if kind == Qemu then MODELS else []
  }

  /** Signed settings; an absent one leaves the guest's own value alone. */
  datatype Network = Network(
    bridge: Option<string>, model: Option<string>, mac: Option<string>, vlan: Option<int>, mtu: Option<int>,
    firewall: Option<bool>, rate: Option<string>,
    ipv4: Option<string>, ipv6: Option<string>, gateway4: Option<string>, gateway6: Option<string>)

  predicate Hex(c: char) {
    '0' <= c <= '9' || 'a' <= c <= 'f' || 'A' <= c <= 'F'
  }

  predicate IsMac(s: string) {
    |s| == 17 && forall i :: 0 <= i < 17 ==> if i % 3 == 2 then s[i] == ':' else Hex(s[i])
  }

  predicate PlainIfSome(o: Option<string>) {
    o.Some? ==> Plain(o.value, ',')
  }

  /** What command validation leaves of each text: names, rates, addresses and
      gateways hold neither white space nor a comma. */
  predicate Admissible(p: Network) {
    && PlainIfSome(p.bridge) && PlainIfSome(p.rate)
    && PlainIfSome(p.ipv4) && PlainIfSome(p.ipv6) && PlainIfSome(p.gateway4) && PlainIfSome(p.gateway6)
    && (p.mac.Some? ==> IsMac(p.mac.value))
    && (p.model.Some? ==> ValidModel(p.model.value))
  }

  function BoolText(b: bool): string {
    if b then "1" else "0"
  }

  function PutInt(n: Option<int>): Edit {
    if n.Some? then Put(Itoa(n.value)) else Keep
  }

  /** The keys the writer rewrites, in the order it appends them. */
  function Changes(kind: Kind, p: Network): seq<Change> {
    (if kind == Qemu then []
     else [Change("hwaddr", PutIfSome(p.mac)), Change("ip", PutIfSome(p.ipv4)), Change("ip6", PutIfSome(p.ipv6)),
           Change("gw", PutIfSome(p.gateway4)), Change("gw6", PutIfSome(p.gateway6))])
    + [Change("bridge", PutIfSome(p.bridge)), Change("tag", PutInt(p.vlan)), Change("mtu", PutInt(p.mtu)),
       Change("firewall", if p.firewall.Some? then Put(BoolText(p.firewall.value)) else Keep),
       Change("rate", if p.rate == Some("0") then Drop else PutIfSome(p.rate))]
  }

  predicate SafeText(s: string) {
    Readable(s, 4096)
  }

  /** The last model segment of the old text. */
  function LastModel(models: seq<string>, fs: seq<Field>): Option<(string, string)> {
    if fs == [] then None
    else if fs[|fs| - 1].Field? && fs[|fs| - 1].key in models then Some((fs[|fs| - 1].key, fs[|fs| - 1].value))
    else LastModel(models, fs[..|fs| - 1])
  }

  /** The model entry the merged text gets: signed parts over the old entry's. */
  function ModelEntry(models: seq<string>, was: string, model: Option<string>, mac: Option<string>): (string, string) {
    var found := LastModel(models, ParseAll(Split(was, ',')));
    (if model.Some? then model.value else if found.Some? then found.value.0 else "",
     if mac.Some? then mac.value else if found.Some? then found.value.1 else "")
  }

  /** When the writer accepts the old text. */
  predicate Mergeable(models: seq<string>, was: string, model: Option<string>, mac: Option<string>) {
    && SafeText(was) && AllPairs(Split(was, ','))
    && (models != [] ==>
          var entry := ModelEntry(models, was, model, mac);
          entry.0 in models && IsMac(entry.1))
  }

  /** The map override the writer is meant to perform: one model entry, then every
      changed key over the old one. */
  function MergedFields(models: seq<string>, was: string, model: Option<string>, mac: Option<string>, cs: seq<Change>)
    : map<string, string>
  {
    var others := Without(models, Fields(Split(was, ',')));
    var entry := ModelEntry(models, was, model, mac);
    Override(if models == [] then others else others[entry.0 := entry.1], cs)
  }

  /** The text the writer produces: the model entry, the surviving fields in their order,
      then the new values. */
  function MergedText(models: seq<string>, was: string, model: Option<string>, mac: Option<string>, cs: seq<Change>): string {
    Join(MergedHead(models, was, model, mac, cs) + Rendered(cs), ',')
  }

  function MergedHead(models: seq<string>, was: string, model: Option<string>, mac: Option<string>, cs: seq<Change>)
    : seq<string>
  {
    var kept := PrintAll(Kept(models, cs, ParseAll(Split(was, ','))));
    var entry := ModelEntry(models, was, model, mac);
    if models == [] then kept else [entry.0 + "=" + entry.1] + kept
  }

  function NetworkText(kind: Kind, was: string, p: Network): string {
    MergedText(Models(kind), was, p.model, p.mac, Changes(kind, p))
  }

  function AddressesText(was: string, p: Network): string {
    if was == "" then Join(Rendered(AddressChanges(p)), ',') else MergedText([], was, None, None, AddressChanges(p))
  }

  function Without(models: seq<string>, fields: map<string, string>): map<string, string> {
    map k | k in fields && k !in models :: fields[k]
  }

  /** The fields that survive: not a model, not rewritten. */
  function Kept(models: seq<string>, cs: seq<Change>, fs: seq<Field>): seq<Field> {
    if fs == [] then []
    else
      var f, before := fs[|fs| - 1], Kept(models, cs, fs[..|fs| - 1]);
      if f.NoField? || f.key in models || Touches(cs, f.key) then before else before + [f]
  }

  lemma {:induction false} CollectKept(models: seq<string>, cs: seq<Change>, fs: seq<Field>)
    ensures Collect(Kept(models, cs, fs)) ==
            map k | k in Without(models, Collect(fs)) && !Touches(cs, k) :: Collect(fs)[k]
    ensures forall f :: f in Kept(models, cs, fs) ==> f.Field?
  {
    if fs != [] {
      var n := |fs| - 1;
      var kept := Kept(models, cs, fs[..n]);
      CollectKept(models, cs, fs[..n]);
      assert (kept + [fs[n]])[..|kept|] == kept;
    }
  }

  lemma KeptNext(models: seq<string>, cs: seq<Change>, fs: seq<Field>, i: nat)
    requires i < |fs| && fs[i].Field?
    ensures AllFields(fs[..i]) ==> AllFields(fs[..i + 1])
    ensures Kept(models, cs, fs[..i + 1]) ==
            Kept(models, cs, fs[..i]) + if fs[i].key in models || Touches(cs, fs[i].key) then [] else [fs[i]]
    ensures PrintAll(Kept(models, cs, fs[..i + 1])) ==
            PrintAll(Kept(models, cs, fs[..i]))
            + if fs[i].key in models || Touches(cs, fs[i].key) then [] else [fs[i].key + "=" + fs[i].value]
    ensures LastModel(models, fs[..i + 1]) ==
            if fs[i].key in models then Some((fs[i].key, fs[i].value)) else LastModel(models, fs[..i])
  {
    assert fs[..i + 1][..i] == fs[..i];
    var kept := Kept(models, cs, fs[..i]);
    assert kept + [] == kept && PrintAll(kept) + [] == PrintAll(kept);
    assert PrintAll(kept + [fs[i]]) == PrintAll(kept) + [Print(fs[i])];
  }

  /** The writer's first loop: keep what is not rewritten, remember the model. */
  method KeepOthers(models: seq<string>, was: string, cs: seq<Change>)
    returns (ok: bool, out: seq<string>, found: Option<(string, string)>)
    ensures ok <==> AllPairs(Split(was, ','))
    ensures ok ==> AllClean(out) && ParseAll(out) == Kept(models, cs, ParseAll(Split(was, ',')))
    ensures ok ==> out == PrintAll(Kept(models, cs, ParseAll(Split(was, ','))))
    ensures ok ==> found == LastModel(models, ParseAll(Split(was, ',')))
  {
    var parts := Split(was, ',');
    var fs := ParseAll(parts);
    ok, out, found := true, [], None;
    for i := 0 to |fs|
      invariant AllFields(fs[..i])
      invariant AllClean(out)
      invariant ParseAll(out) == Kept(models, cs, fs[..i]) && out == PrintAll(Kept(models, cs, fs[..i]))
      invariant found == LastModel(models, fs[..i])
    {
      var f := fs[i];
      if f.NoField? {
        AllFieldsAt(fs);
        assert fs[i] in fs;
        return false, [], None;
      }
      KeptNext(models, cs, fs, i);
      if f.key in models {
        found := Some((f.key, f.value));
      } else if !Touches(cs, f.key) {
        KeepSegment(out, was, i);
        out := out + [f.key + "=" + f.value];
      }
    }
    assert fs[..|fs|] == fs;
  }

  lemma MacIsPlain(s: string)
    requires IsMac(s)
    ensures Plain(s, ',')
  {
  }

  lemma KeysAreClean()
    ensures CleanKey("hwaddr") && CleanKey("ip") && CleanKey("ip6") && CleanKey("gw") && CleanKey("gw6")
    ensures CleanKey("bridge") && CleanKey("tag") && CleanKey("mtu") && CleanKey("firewall") && CleanKey("rate")
  {
    var keys := ["hwaddr", "ip", "ip6", "gw", "gw6", "bridge", "tag", "mtu", "firewall", "rate"];
    forall i | 0 <= i < |keys| ensures CleanKey(keys[i]) {
      WordIsClean(keys[i]);
    }
    assert keys[0] == "hwaddr" && keys[1] == "ip" && keys[2] == "ip6" && keys[3] == "gw" && keys[4] == "gw6";
    assert keys[5] == "bridge" && keys[6] == "tag" && keys[7] == "mtu" && keys[8] == "firewall" && keys[9] == "rate";
  }

  lemma {:induction false} ChangesAreClean(kind: Kind, p: Network)
    requires Admissible(p)
    ensures CleanChanges(Changes(kind, p))
  {
    if p.mac.Some? {
      MacIsPlain(p.mac.value);
    }
    KeysAreClean();
    var cs := Changes(kind, p);
    forall i | 0 <= i < |cs| ensures CleanChange(cs[i]) {
      assert CleanKey(cs[i].key);
    }
  }

  lemma ChangesAreDistinct(kind: Kind, p: Network)
    ensures DistinctKeys(Changes(kind, p))
  {
  }

  lemma ModelsUntouched(p: Network, key: string)
    requires ValidModel(key)
    ensures !Touches(Changes(Qemu, p), key)
  {
  }

  /** Overriding the whole old text is overriding the fields that were kept. */
  lemma OverrideKept(models: seq<string>, cs: seq<Change>, fs: seq<Field>)
    ensures Override(Without(models, Collect(fs)), cs) == Collect(Kept(models, cs, fs)) + Settings(cs)
  {
    CollectKept(models, cs, fs);
    var others := Without(models, Collect(fs));
    assert (map k | k in others && !Touches(cs, k) :: others[k]) == Collect(Kept(models, cs, fs));
  }

  lemma OverrideKeptModel(models: seq<string>, cs: seq<Change>, fs: seq<Field>, key: string, value: string)
    requires key in models && !Touches(cs, key)
    ensures Override(Without(models, Collect(fs))[key := value], cs)
            == map[key := value] + Collect(Kept(models, cs, fs)) + Settings(cs)
  {
    CollectKept(models, cs, fs);
    KeptWithModel(Without(models, Collect(fs)), Collect(Kept(models, cs, fs)), cs, key, value);
  }

  lemma KeptWithModel(others: map<string, string>, kept: map<string, string>, cs: seq<Change>, key: string, value: string)
    requires key !in others && !Touches(cs, key)
    requires kept == map k | k in others && !Touches(cs, k) :: others[k]
    ensures Override(others[key := value], cs) == map[key := value] + kept + Settings(cs)
  {
    var all := others[key := value];
    assert (map k | k in all && !Touches(cs, k) :: all[k]) == map[key := value] + kept;
  }

  /** What stays of the old text, behind the model entry if there are models. */
  method MergeHead(models: seq<string>, was: string, model: Option<string>, mac: Option<string>, cs: seq<Change>)
    returns (r: Option<seq<string>>)
    requires CleanChanges(cs)
    requires forall m :: m in models ==> CleanKey(m) && !Touches(cs, m)
    ensures r.Some? <==> Mergeable(models, was, model, mac)
    ensures r.Some? ==> r.value == MergedHead(models, was, model, mac, cs) && AllClean(r.value) && AllPairs(r.value)
    ensures r.Some? ==> Fields(r.value) + Settings(cs) == MergedFields(models, was, model, mac, cs)
    ensures r.Some? && models != [] ==> r.value != []
  {
    if !SafeText(was) {
      return None;
    }
    var ok, out, found := KeepOthers(models, was, cs);
    if !ok {
      return None;
    }
    CollectKept(models, cs, ParseAll(Split(was, ',')));
    AllFieldsAt(ParseAll(out));
    var entry := (if model.Some? then model.value else if found.Some? then found.value.0 else "",
                  if mac.Some? then mac.value else if found.Some? then found.value.1 else "");
    if models == [] {
      OverrideKept(models, cs, ParseAll(Split(was, ',')));
      return Some(out);
    }
    if entry.0 !in models || !IsMac(entry.1) {
      return None;
    }
    OverrideKeptModel(models, cs, ParseAll(Split(was, ',')), entry.0, entry.1);
    out := PrependModel(entry.0, entry.1, out);
    return Some(out);
  }

  /** Merge changed keys, and a model entry if there are models, into an option text. */
  method Merge(models: seq<string>, was: string, model: Option<string>, mac: Option<string>, cs: seq<Change>)
    returns (r: Result<string>)
    requires CleanChanges(cs)
    requires forall m :: m in models ==> CleanKey(m) && !Touches(cs, m)
    ensures r.Ok? <==> Mergeable(models, was, model, mac)
    ensures r.Ok? ==> Fields(Split(r.value, ',')) == MergedFields(models, was, model, mac, cs)
    ensures r.Ok? && models != [] ==> AllPairs(Split(r.value, ','))
    ensures r.Ok? ==> r.value == MergedText(models, was, model, mac, cs)
  {
    var head := MergeHead(models, was, model, mac, cs);
    if head == None {
      return Err;
    }
    var out := AppendChanges(head.value, cs);
    FieldsOfJoined(out);
    r := Ok(Join(out, ','));
  }

  method PrependModel(model: string, mac: string, rest: seq<string>) returns (out: seq<string>)
    requires CleanKey(model) && IsMac(mac) && AllClean(rest) && AllPairs(rest)
    ensures out != [] && AllClean(out) && AllPairs(out) && Fields(out) == map[model := mac] + Fields(rest)
    ensures out == [model + "=" + mac] + rest
  {
    MacIsPlain(mac);
    OnePair(Change(model, Put(mac)));
    PairsConcat([model + "=" + mac], rest);
    FieldsConcat([model + "=" + mac], rest);
    out := [model + "=" + mac] + rest;
  }

  lemma ModelIsClean(model: string)
    requires ValidModel(model)
    ensures CleanKey(model)
  {
  }

  /** Merge signed settings into an interface text. */
  method MergeNetwork(kind: Kind, was: string, p: Network) returns (r: Result<string>)
    requires Admissible(p)
    ensures r.Ok? <==> Mergeable(Models(kind), was, p.model, p.mac)
    ensures r.Ok? ==> Fields(Split(r.value, ',')) == MergedFields(Models(kind), was, p.model, p.mac, Changes(kind, p))
    ensures r.Ok? && kind == Qemu ==> AllPairs(Split(r.value, ','))
    ensures r.Ok? ==> r.value == NetworkText(kind, was, p)
    ensures r.Ok? ==> NicFields(kind, was, Fields(Split(r.value, ',')), p)
  {
    ChangesAreClean(kind, p);
    forall m | m in Models(kind) ensures CleanKey(m) && !Touches(Changes(kind, p), m) {
      ModelIsClean(m);
      ModelsUntouched(p, m);
    }
    r := Merge(Models(kind), was, p.model, p.mac, Changes(kind, p));
    if r.Ok? {
      MergedNic(kind, was, p);
    }
  }

  /** Looking up any key of the merged text: a changed key has exactly its change,
      exactly one model entry exists, and every other key has its old value. */
  lemma MergedLookup(kind: Kind, was: string, p: Network, key: string)
    requires Mergeable(Models(kind), was, p.model, p.mac)
    ensures var merged := MergedFields(Models(kind), was, p.model, p.mac, Changes(kind, p));
            var entry := ModelEntry(Models(kind), was, p.model, p.mac);
            var cs := Changes(kind, p);
            && (key in Models(kind) ==> Get(merged, key) == if key == entry.0 then entry.1 else "")
            && (key !in Models(kind) && !Touches(cs, key) ==> Get(merged, key) == Get(Fields(Split(was, ',')), key))
            && (forall i :: 0 <= i < |cs| && cs[i].key == key ==>
                  (cs[i].edit.Put? ==> Get(merged, key) == cs[i].edit.value)
                  && (cs[i].edit.Drop? ==> key !in merged))
  {
    var cs := Changes(kind, p);
    var others := Without(Models(kind), Fields(Split(was, ',')));
    var entry := ModelEntry(Models(kind), was, p.model, p.mac);
    var base := if Models(kind) == [] then others else others[entry.0 := entry.1];
    OverrideUntouched(base, cs, key);
    ChangesAreDistinct(kind, p);
    if key in Models(kind) {
      ModelsUntouched(p, key);
    }
    forall i | 0 <= i < |cs| && cs[i].key == key
      ensures (cs[i].edit.Put? ==> Get(Override(base, cs), key) == cs[i].edit.value)
              && (cs[i].edit.Drop? ==> key !in Override(base, cs))
    {
      OverrideLookup(base, cs, i);
    }
  }

  /** The model entry of the merged text: the signed parts, or those of the last old
      model entry; no other model is left. */
  predicate ModelFields(was: string, now: map<string, string>, p: Network) {
    var found := LastModel(MODELS, ParseAll(Split(was, ',')));
    forall m :: m in MODELS ==>
      if p.model == Some(m) || (p.model == None && found.Some? && found.value.0 == m)
      then m in now && now[m] == (if p.mac.Some? then p.mac.value else if found.Some? then found.value.1 else "")
      else m !in now
  }

  /** The settings both guest kinds have. */
  predicate CommonFields(was: map<string, string>, now: map<string, string>, p: Network) {
    && Sets(was, now, "bridge", p.bridge)
    && Sets(was, now, "tag", if p.vlan.Some? then Some(Itoa(p.vlan.value)) else None)
    && Sets(was, now, "mtu", if p.mtu.Some? then Some(Itoa(p.mtu.value)) else None)
    && Sets(was, now, "firewall", if p.firewall == Some(true) then Some("1") else if p.firewall == Some(false) then Some("0") else None)
    && (if p.rate == Some("0") then "rate" !in now else Sets(was, now, "rate", p.rate))
  }

  /** The settings only a container's interface text has. */
  predicate ContainerFields(was: map<string, string>, now: map<string, string>, p: Network) {
    && Sets(was, now, "hwaddr", p.mac) && Sets(was, now, "ip", p.ipv4) && Sets(was, now, "ip6", p.ipv6)
    && Sets(was, now, "gw", p.gateway4) && Sets(was, now, "gw6", p.gateway6)
  }

  const COMMON_KEYS := ["bridge", "tag", "mtu", "firewall", "rate"]

  const CONTAINER_KEYS := ["hwaddr", "ip", "ip6", "gw", "gw6"]

  /** Every key of the merged interface text, one by one. */
  ghost predicate NicFields(kind: Kind, was: string, now: map<string, string>, p: Network) {
    var before := Fields(Split(was, ','));
    && CommonFields(before, now, p)
    && (if kind == Qemu then ModelFields(was, now, p) else ContainerFields(before, now, p))
    && forall k :: k !in COMMON_KEYS && k !in (if kind == Qemu then MODELS else CONTAINER_KEYS) ==> SameAt(before, now, k)
  }

  /** What the changes are made to: the old fields, and the model entry if there is one. */
  function Base(kind: Kind, was: string, p: Network): map<string, string> {
    var others := Without(Models(kind), Fields(Split(was, ',')));
    var entry := ModelEntry(Models(kind), was, p.model, p.mac);
    if Models(kind) == [] then others else others[entry.0 := entry.1]
  }

  lemma MergedChange(kind: Kind, was: string, p: Network, i: nat)
    requires Mergeable(Models(kind), was, p.model, p.mac) && i < |Changes(kind, p)|
    ensures Obeys(Fields(Split(was, ',')), MergedFields(Models(kind), was, p.model, p.mac, Changes(kind, p)), Changes(kind, p)[i])
  {
    ChangesAreDistinct(kind, p);
    OverrideLookup(Base(kind, was, p), Changes(kind, p), i);
    if kind == Qemu {
      ChangesAreNotModels(p, i);
    }
  }

  lemma MergedCommon(kind: Kind, was: string, p: Network)
    requires Mergeable(Models(kind), was, p.model, p.mac)
    ensures CommonFields(Fields(Split(was, ',')), MergedFields(Models(kind), was, p.model, p.mac, Changes(kind, p)), p)
  {
    var n := if kind == Qemu then 0 else 5;
    MergedChange(kind, was, p, n);
    MergedChange(kind, was, p, n + 1);
    MergedChange(kind, was, p, n + 2);
    MergedChange(kind, was, p, n + 3);
    MergedChange(kind, was, p, n + 4);
  }

  lemma MergedContainer(was: string, p: Network)
    requires Mergeable([], was, p.model, p.mac)
    ensures ContainerFields(Fields(Split(was, ',')), MergedFields([], was, p.model, p.mac, Changes(Lxc, p)), p)
  {
    MergedChange(Lxc, was, p, 0);
    MergedChange(Lxc, was, p, 1);
    MergedChange(Lxc, was, p, 2);
    MergedChange(Lxc, was, p, 3);
    MergedChange(Lxc, was, p, 4);
  }

  lemma MergedModel(was: string, p: Network)
    requires Mergeable(MODELS, was, p.model, p.mac)
    ensures ModelFields(was, MergedFields(MODELS, was, p.model, p.mac, Changes(Qemu, p)), p)
  {
    forall m | m in MODELS
      ensures SameAt(Base(Qemu, was, p), MergedFields(MODELS, was, p.model, p.mac, Changes(Qemu, p)), m)
    {
      ModelsUntouched(p, m);
      OverrideUntouched(Base(Qemu, was, p), Changes(Qemu, p), m);
    }
  }

  lemma ChangedKeys(kind: Kind, p: Network, k: string)
    requires Touches(Changes(kind, p), k)
    ensures k in COMMON_KEYS || (kind == Lxc && k in CONTAINER_KEYS)
  {
    var i :| 0 <= i < |Changes(kind, p)| && Changes(kind, p)[i].key == k;
    assert COMMON_KEYS[0] == "bridge" && COMMON_KEYS[1] == "tag" && COMMON_KEYS[2] == "mtu" && COMMON_KEYS[3] == "firewall"
        && COMMON_KEYS[4] == "rate";
    assert CONTAINER_KEYS[0] == "hwaddr" && CONTAINER_KEYS[1] == "ip" && CONTAINER_KEYS[2] == "ip6" && CONTAINER_KEYS[3] == "gw"
        && CONTAINER_KEYS[4] == "gw6";
  }

  /** The merged fields, key by literal key. */
  lemma MergedNic(kind: Kind, was: string, p: Network)
    requires Mergeable(Models(kind), was, p.model, p.mac)
    ensures NicFields(kind, was, MergedFields(Models(kind), was, p.model, p.mac, Changes(kind, p)), p)
  {
    MergedCommon(kind, was, p);
    if kind == Qemu {
      MergedModel(was, p);
    } else {
      MergedContainer(was, p);
    }
    forall k | k !in COMMON_KEYS && k !in (if kind == Qemu then MODELS else CONTAINER_KEYS)
      ensures SameAt(Fields(Split(was, ',')), MergedFields(Models(kind), was, p.model, p.mac, Changes(kind, p)), k)
    {
      OtherKey(kind, was, p, k);
    }
  }

  lemma OtherKey(kind: Kind, was: string, p: Network, k: string)
    requires Mergeable(Models(kind), was, p.model, p.mac)
    requires k !in COMMON_KEYS && k !in (if kind == Qemu then MODELS else CONTAINER_KEYS)
    ensures SameAt(Fields(Split(was, ',')), MergedFields(Models(kind), was, p.model, p.mac, Changes(kind, p)), k)
  {
    if Touches(Changes(kind, p), k) {
      ChangedKeys(kind, p, k);
      assert false;
    }
    OverrideUntouched(Base(kind, was, p), Changes(kind, p), k);
  }

  /** The last model entry is the one nothing later replaces. */
  lemma {:induction false} LastModelExactly(models: seq<string>, fs: seq<Field>, i: nat)
    requires i < |fs| && fs[i].Field? && fs[i].key in models
    requires forall j :: i < j < |fs| ==> fs[j].NoField? || fs[j].key !in models
    ensures LastModel(models, fs) == Some((fs[i].key, fs[i].value))
  {
    if i < |fs| - 1 {
      LastModelExactly(models, fs[..|fs| - 1], i);
    }
  }

  // ---------------------------------------------------------------- Addresses

  function PutOrDrop(value: Option<string>): Edit {
    if value == None then Keep else if value.value == "" then Drop else Put(value.value)
  }

  /** An empty signed address or gateway must be absent from the address text. */
  function AddressChanges(p: Network): seq<Change> {
    [Change("ip", PutOrDrop(p.ipv4)), Change("ip6", PutOrDrop(p.ipv6)),
     Change("gw", PutOrDrop(p.gateway4)), Change("gw6", PutOrDrop(p.gateway6))]
  }

  /** The signed value is in place; an absent one leaves the old value alone. */
  predicate Sets(was: map<string, string>, now: map<string, string>, key: string, value: Option<string>) {
    if value.Some? then key in now && now[key] == value.value else SameAt(was, now, key)
  }

  /** The same, except that an empty signed value means an absent key. */
  predicate SetsOrClears(was: map<string, string>, now: map<string, string>, key: string, value: Option<string>) {
    if value == Some("") then key !in now else Sets(was, now, key, value)
  }

  /** Each address and each gateway is under its own key, and no other key changed. */
  ghost predicate AddressFields(was: map<string, string>, now: map<string, string>, p: Network) {
    && SetsOrClears(was, now, "ip", p.ipv4) && SetsOrClears(was, now, "ip6", p.ipv6)
    && SetsOrClears(was, now, "gw", p.gateway4) && SetsOrClears(was, now, "gw6", p.gateway6)
    && forall k :: k != "ip" && k != "ip6" && k != "gw" && k != "gw6" ==> SameAt(was, now, k)
  }

  lemma AddressesAreMerged(was: map<string, string>, p: Network)
    ensures AddressFields(was, Override(was, AddressChanges(p)), p)
  {
    var cs := AddressChanges(p);
    AddressChangesAreDistinct(p);
    OverrideLookup(was, cs, 0);
    OverrideLookup(was, cs, 1);
    OverrideLookup(was, cs, 2);
    OverrideLookup(was, cs, 3);
    forall k | k != "ip" && k != "ip6" && k != "gw" && k != "gw6" ensures SameAt(was, Override(was, cs), k) {
      OverrideUntouched(was, cs, k);
    }
  }

  /** Merge signed addresses into the separate address text of a QEMU interface. */
  method MergeAddresses(was: string, p: Network) returns (r: Result<string>)
    requires Admissible(p)
    ensures r.Ok? <==> SafeText(was) && (was == "" || AllPairs(Split(was, ',')))
    ensures r.Ok? ==> Fields(Split(r.value, ',')) == Override(Fields(Split(was, ',')), AddressChanges(p))
    ensures r.Ok? ==> r.value == AddressesText(was, p)
    ensures r.Ok? ==> AddressFields(Fields(Split(was, ',')), Fields(Split(r.value, ',')), p)
  {
    AddressChangesAreClean(p);
    AddressesAreMerged(Fields(Split(was, ',')), p);
    if was == "" {
      r := FreshAddresses(p);
      return;
    }
    WithoutNothing(Fields(Split(was, ',')));
    r := Merge([], was, None, None, AddressChanges(p));
  }

  lemma AddressChangesAreClean(p: Network)
    requires Admissible(p)
    ensures CleanChanges(AddressChanges(p))
  {
    KeysAreClean();
  }

  /** Addresses for an interface that has none yet. */
  method FreshAddresses(p: Network) returns (r: Result<string>)
    requires CleanChanges(AddressChanges(p))
    ensures r == Ok(AddressesText("", p))
    ensures Fields(Split(r.value, ',')) == Override(Fields(Split("", ',')), AddressChanges(p))
  {
    JoinedChanges(AddressChanges(p));
    var out := Append([], AddressChanges(p));
    assert [] + Rendered(AddressChanges(p)) == Rendered(AddressChanges(p));
    r := Ok(Join(out, ','));
  }

  lemma WithoutNothing(fields: map<string, string>)
    ensures Without([], fields) == fields
  {
  }

  // ------------------------------------------------------------------ Reader

  datatype Delivery = Delivery(
    iface: string, bridge: string, mac: string, vlan: Option<int>, mtu: int, firewall: bool, rate: string,
    ipv4: string, ipv6: string, cidrs: seq<string>)

  /** A value of a guest's configuration, if there is a usable one. */
  function ConfigString(raw: map<string, string>, key: string): Option<string> {
    if key in raw && raw[key] != "" && SafeText(raw[key]) then Some(raw[key]) else None
  }

  function AddressKey(iface: string): string {
    "ipconfig" + (if "net" <= iface then iface[3..] else iface)
  }

  predicate EqualFold(a: string, b: string) {
    Lower(a) == Lower(b)
  }

  predicate FirewallMatches(text: string, expected: bool) {
    var t := TrimSpace(text);
    if expected then t == "1" else t == "" || t == "0"
  }

  /** `format` is Go's shortest decimal text of a parsed number. */
  function NormalizedRate(value: string, format: string -> string): string {
    var t := TrimSpace(value);
    if t == "" || t == "0" || t == "0.0" then "0" else format(t)
  }

  /** The last model entry that carries an address. */
  function ConfiguredMac(models: seq<string>, parts: map<string, string>): string {
    if models == [] then ""
    else if Get(parts, models[|models| - 1]) != "" then Get(parts, models[|models| - 1])
    else ConfiguredMac(models[..|models| - 1], parts)
  }

  predicate TagMatches(tag: string, expected: Option<int>) {
    tag == if expected.Some? then Itoa(expected.value) else ""
  }

  predicate PartsMatch(parts: map<string, string>, e: Delivery, format: string -> string) {
    && EqualFold(ConfiguredMac(MODELS, parts), e.mac)
    && Get(parts, "bridge") == e.bridge
    && Get(parts, "mtu") == Itoa(e.mtu)
    && FirewallMatches(Get(parts, "firewall"), e.firewall)
    && NormalizedRate(Get(parts, "rate"), format) == NormalizedRate(e.rate, format)
    && TagMatches(Get(parts, "tag"), e.vlan)
  }

  predicate AddressesMatch(raw: map<string, string>, e: Delivery) {
    var text := ConfigString(raw, AddressKey(e.iface));
    && text.Some?
    && Get(Fields(Split(text.value, ',')), "ip") == e.ipv4
    && Get(Fields(Split(text.value, ',')), "ip6") == e.ipv6
  }

  /** The reader's judgement of an interface text. */
  predicate NetworkMatches(raw: map<string, string>, value: string, e: Delivery, format: string -> string) {
    && AllPairs(Split(value, ','))
    && PartsMatch(Fields(Split(value, ',')), e, format)
    && AddressesMatch(raw, e)
  }

  /** Equal apart from the case of letters. */
  lemma FoldMeans(a: string, b: string)
    ensures EqualFold(a, b) <==> |a| == |b| && forall i :: 0 <= i < |a| ==> SameLetter(a[i], b[i])
  {
    if |a| == |b| {
      forall i | 0 <= i < |a| ensures Lower(a)[i] == Lower(b)[i] <==> SameLetter(a[i], b[i]) {
        LowerAlike(a[i], b[i]);
      }
      if forall i :: 0 <= i < |a| ==> SameLetter(a[i], b[i]) {
        assert Lower(a) == Lower(b);
      }
    } else {
      assert |Lower(a)| != |Lower(b)|;
    }
  }

  /** No rate, zero and zero point zero are the same; any other is formatted. */
  lemma RateMeans(rate: string, format: string -> string)
    ensures NormalizedRate("", format) == NormalizedRate("0", format) == NormalizedRate("0.0", format) == "0"
    ensures Tight(rate) && rate != "" && rate != "0" && rate != "0.0" ==> NormalizedRate(rate, format) == format(rate)
  {
  }

  /** Of several model entries with an address the last model's is taken. */
  lemma {:induction false} LastMacCounts(models: seq<string>, parts: map<string, string>, i: nat)
    requires i < |models| && Get(parts, models[i]) != ""
    requires forall j :: i < j < |models| ==> Get(parts, models[j]) == ""
    ensures ConfiguredMac(models, parts) == Get(parts, models[i])
  {
    if i < |models| - 1 {
      LastMacCounts(models[..|models| - 1], parts, i);
    }
  }

  /** What an accepted interface text says, key by literal key. */
  lemma AcceptedPartsMean(parts: map<string, string>, e: Delivery, format: string -> string)
    ensures PartsMatch(parts, e, format) <==>
            && EqualFold(ConfiguredMac(MODELS, parts), e.mac)
            && Get(parts, "bridge") == e.bridge && Get(parts, "mtu") == Itoa(e.mtu)
            && Get(parts, "tag") == (if e.vlan.Some? then Itoa(e.vlan.value) else "")
            && (TrimSpace(Get(parts, "firewall")) == "1" || !e.firewall)
            && (TrimSpace(Get(parts, "firewall")) == "" || TrimSpace(Get(parts, "firewall")) == "0" || e.firewall)
            && NormalizedRate(Get(parts, "rate"), format) == NormalizedRate(e.rate, format)
  {
  }

  lemma AcceptedAddressesMean(raw: map<string, string>, e: Delivery)
    ensures AddressesMatch(raw, e) <==>
            var key := AddressKey(e.iface);
            && key in raw && raw[key] != "" && Readable(raw[key], 4096)
            && Get(Fields(Split(raw[key], ',')), "ip") == e.ipv4 && Get(Fields(Split(raw[key], ',')), "ip6") == e.ipv6
  {
  }

  lemma AcceptedMeans(raw: map<string, string>, value: string, e: Delivery, format: string -> string)
    ensures NetworkMatches(raw, value, e, format) <==>
            && (forall f :: f in ParseAll(Split(value, ',')) ==> f.Field?)
            && PartsMatch(Fields(Split(value, ',')), e, format) && AddressesMatch(raw, e)
  {
    AllFieldsAt(ParseAll(Split(value, ',')));
  }

  /** An interface's address text is under the key of the same number. */
  lemma AddressKeyMeans(number: string)
    ensures AddressKey("net" + number) == "ipconfig" + number
  {
    assert ("net" + number)[3..] == number;
  }

  /** The last model that carries an address decides. */
  method FindMac(models: seq<string>, parts: map<string, string>) returns (mac: string)
    ensures mac == ConfiguredMac(models, parts)
  {
    mac := "";
    for i := 0 to |models|
      invariant mac == ConfiguredMac(models[..i], parts)
    {
      assert models[..i + 1][..i] == models[..i];
      if Get(parts, models[i]) != "" {
        mac := Get(parts, models[i]);
      }
    }
    assert models[..|models|] == models;
  }

  method CheckParts(parts: map<string, string>, e: Delivery, format: string -> string) returns (ok: bool)
    ensures ok <==> PartsMatch(parts, e, format)
  {
    var mac := FindMac(MODELS, parts);
    ok := EqualFold(mac, e.mac) && Get(parts, "bridge") == e.bridge && Get(parts, "mtu") == Itoa(e.mtu)
          && FirewallMatches(Get(parts, "firewall"), e.firewall)
          && NormalizedRate(Get(parts, "rate"), format) == NormalizedRate(e.rate, format)
          && TagMatches(Get(parts, "tag"), e.vlan);
  }

  /** The reader itself: it stops at the first segment that is not a pair. */
  method CheckNetwork(raw: map<string, string>, value: string, e: Delivery, format: string -> string) returns (ok: bool)
    ensures ok <==> NetworkMatches(raw, value, e, format)
  {
    var parts := ReadPairs(Split(value, ','));
    if parts == None {
      return false;
    }
    ok := CheckParts(parts.value, e, format);
    var text := ConfigString(raw, AddressKey(e.iface));
    if !ok || text == None {
      return false;
    }
    var addresses := ReadFields(Split(text.value, ','));
    return Get(addresses, "ip") == e.ipv4 && Get(addresses, "ip6") == e.ipv6;
  }

  /** The signed settings supply every field the reader checks, as the reinstall
      contract demands. */
  predicate Supplies(p: Network, e: Delivery) {
    && p.bridge == Some(e.bridge) && p.mac.Some? && EqualFold(p.mac.value, e.mac)
    && p.mtu == Some(e.mtu) && p.firewall == Some(e.firewall) && p.rate == Some(e.rate)
    && p.ipv4 == Some(e.ipv4) && p.ipv6 == Some(e.ipv6)
  }

  lemma ConfiguredMacIsMerged(was: string, p: Network)
    requires Admissible(p) && Mergeable(MODELS, was, p.model, p.mac) && p.mac.Some?
    ensures ConfiguredMac(MODELS, MergedFields(MODELS, was, p.model, p.mac, Changes(Qemu, p))) == p.mac.value
  {
    var merged := MergedFields(MODELS, was, p.model, p.mac, Changes(Qemu, p));
    forall key | key in MODELS
      ensures Get(merged, key) == if key == ModelEntry(MODELS, was, p.model, p.mac).0 then p.mac.value else ""
    {
      MergedLookup(Qemu, was, p, key);
    }
    OnlyMac(MODELS, merged, ModelEntry(MODELS, was, p.model, p.mac).0, p.mac.value);
  }

  lemma {:induction false} OnlyMac(models: seq<string>, parts: map<string, string>, model: string, mac: string)
    requires mac != ""
    requires forall key :: key in models ==> Get(parts, key) == if key == model then mac else ""
    ensures ConfiguredMac(models, parts) == if model in models then mac else ""
  {
    if models != [] {
      assert models == models[..|models| - 1] + [models[|models| - 1]];
      OnlyMac(models[..|models| - 1], parts, model, mac);
    }
  }

  /** The reader accepts what the writer wrote exactly when the resulting VLAN tag is
      the expected one and the resulting address text is a usable value. */
  lemma MergedNetworkMatches(was: string, wasAddresses: string, p: Network, e: Delivery, merged: string, addresses: string,
                             raw: map<string, string>, format: string -> string)
    requires Admissible(p) && Supplies(p, e)
    requires Mergeable(MODELS, was, p.model, p.mac) && AllPairs(Split(merged, ','))
    requires Fields(Split(merged, ',')) == MergedFields(MODELS, was, p.model, p.mac, Changes(Qemu, p))
    requires Fields(Split(addresses, ',')) == Override(Fields(Split(wasAddresses, ',')), AddressChanges(p))
    requires AddressKey(e.iface) in raw && raw[AddressKey(e.iface)] == addresses
    ensures NetworkMatches(raw, merged, e, format) <==>
            && TagMatches(if p.vlan.Some? then Itoa(p.vlan.value) else Get(Fields(Split(was, ',')), "tag"), e.vlan)
            && addresses != "" && SafeText(addresses)
  {
    MergedPartsMatch(was, p, e, format);
    MergedAddresses(wasAddresses, p, e);
  }

  lemma MergedKey(was: string, p: Network, i: nat, key: string, edit: Edit)
    requires Mergeable(MODELS, was, p.model, p.mac)
    requires i < |Changes(Qemu, p)| && Changes(Qemu, p)[i] == Change(key, edit)
    ensures var merged := MergedFields(MODELS, was, p.model, p.mac, Changes(Qemu, p));
            Get(merged, key) ==
            match edit case Put(v) => v case Drop => "" case Keep => Get(Fields(Split(was, ',')), key)
  {
    MergedLookup(Qemu, was, p, key);
    var cs := Changes(Qemu, p);
    if edit == Keep {
      ChangesAreDistinct(Qemu, p);
      assert !Touches(cs, key);
      ChangesAreNotModels(p, i);
    }
  }

  lemma ChangesAreNotModels(p: Network, i: nat)
    requires i < |Changes(Qemu, p)|
    ensures Changes(Qemu, p)[i].key !in MODELS
  {
  }

  lemma FirewallTextMatches(b: bool)
    ensures FirewallMatches(BoolText(b), b)
  {
  }

  /** Rate "0" is written as an absent key; the reader takes both for zero. */
  function RateEdit(rate: string): Edit {
    if rate == "0" then Drop else Put(rate)
  }

  lemma RateMatches(rate: string, format: string -> string)
    ensures RateEdit(rate).Drop? ==> NormalizedRate("", format) == NormalizedRate(rate, format)
  {
  }

  lemma MergedPlace(was: string, p: Network, e: Delivery)
    requires Supplies(p, e) && Mergeable(MODELS, was, p.model, p.mac)
    ensures var parts := MergedFields(MODELS, was, p.model, p.mac, Changes(Qemu, p));
            && Get(parts, "bridge") == e.bridge && Get(parts, "mtu") == Itoa(e.mtu)
            && Get(parts, "tag") == if p.vlan.Some? then Itoa(p.vlan.value) else Get(Fields(Split(was, ',')), "tag")
  {
    MergedKey(was, p, 0, "bridge", Put(e.bridge));
    MergedKey(was, p, 1, "tag", PutInt(p.vlan));
    MergedKey(was, p, 2, "mtu", Put(Itoa(e.mtu)));
  }

  lemma MergedPolicy(was: string, p: Network, e: Delivery, format: string -> string)
    requires Supplies(p, e) && Mergeable(MODELS, was, p.model, p.mac)
    ensures var parts := MergedFields(MODELS, was, p.model, p.mac, Changes(Qemu, p));
            && FirewallMatches(Get(parts, "firewall"), e.firewall)
            && NormalizedRate(Get(parts, "rate"), format) == NormalizedRate(e.rate, format)
  {
    MergedKey(was, p, 3, "firewall", Put(BoolText(e.firewall)));
    FirewallTextMatches(e.firewall);
    MergedKey(was, p, 4, "rate", RateEdit(e.rate));
    RateMatches(e.rate, format);
  }

  lemma MergedPartsMatch(was: string, p: Network, e: Delivery, format: string -> string)
    requires Admissible(p) && Supplies(p, e) && Mergeable(MODELS, was, p.model, p.mac)
    ensures PartsMatch(MergedFields(MODELS, was, p.model, p.mac, Changes(Qemu, p)), e, format) <==>
            TagMatches(if p.vlan.Some? then Itoa(p.vlan.value) else Get(Fields(Split(was, ',')), "tag"), e.vlan)
  {
    ConfiguredMacIsMerged(was, p);
    MergedPlace(was, p, e);
    MergedPolicy(was, p, e, format);
  }

  lemma AddressChangesAreDistinct(p: Network)
    ensures DistinctKeys(AddressChanges(p))
  {
  }

  lemma MergedAddresses(was: string, p: Network, e: Delivery)
    requires Supplies(p, e)
    ensures var parts := Override(Fields(Split(was, ',')), AddressChanges(p));
            Get(parts, "ip") == e.ipv4 && Get(parts, "ip6") == e.ipv6
  {
    AddressChangesAreDistinct(p);
    OverrideLookup(Fields(Split(was, ',')), AddressChanges(p), 0);
    OverrideLookup(Fields(Split(was, ',')), AddressChanges(p), 1);
  }
}

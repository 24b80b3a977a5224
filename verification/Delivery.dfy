/** What a delivered guest must look like: its signed interfaces and firewall, the
    writers that bring them about, and the separate readers that prove them. */
module DeliveryProof {
  import opened Common
  import opened Text
  import opened OptionText
  import opened GuestNetwork

  /** One member of an address set; a negative one excludes its address. */
  datatype Entry = Entry(cidr: string, negative: bool)

  /** A guest's firewall: whether it is enforced, and its named address sets. */
  datatype Firewall = Firewall(enable: bool, sets: map<string, seq<Entry>>)

  /** The parts of a guest that a delivery proof reads. */
  datatype Setup = Setup(config: map<string, string>, firewall: Firewall)

  datatype Nic = Nic(iface: string, settings: Network)

  /** Number formatting and address canonicalisation, which are given. */
  datatype Tools = Tools(format: string -> string, canonical: string -> Option<string>)

  // -------------------------------------------------------------- Address filters

  function SetName(iface: string): string {
    "ipfilter-" + iface
  }

  function Canonical(x: Entry, canonical: string -> Option<string>): string {
    if canonical(x.cidr).Some? then canonical(x.cidr).value else ""
  }

  function Canonicals(entries: seq<Entry>, canonical: string -> Option<string>): seq<string> {
    seq(|entries|, i requires 0 <= i < |entries| => Canonical(entries[i], canonical))
  }

  predicate Usable(x: Entry, canonical: string -> Option<string>) {
    !x.negative && canonical(x.cidr).Some?
  }

  /** The entries are readable, none twice, and mean exactly the signed addresses. */
  predicate Denotes(entries: seq<Entry>, cidrs: seq<string>, canonical: string -> Option<string>) {
    && (forall x :: x in entries ==> Usable(x, canonical))
    && Distinct(Canonicals(entries, canonical))
    && Members(Canonicals(entries, canonical)) == Members(cidrs)
  }

  /** Signed addresses are in canonical form and none is listed twice. */
  predicate SignedAddresses(cidrs: seq<string>, canonical: string -> Option<string>) {
    Distinct(cidrs) && forall c :: c in cidrs ==> canonical(c) == Some(c)
  }

  /** Compare an address set's entries with the signed ones: no negative, unreadable or
      repeated entry, as many as signed, and every signed one present. */
  method VerifyFilterSet(entries: seq<Entry>, expected: seq<string>, canonical: string -> Option<string>) returns (ok: bool)
    requires SignedAddresses(expected, canonical)
    ensures ok <==> Denotes(entries, expected, canonical)
  {
    var cs, actual: set<string> := Canonicals(entries, canonical), {};
    for i := 0 to |entries|
      invariant forall x :: x in entries[..i] ==> Usable(x, canonical)
      invariant Seen(cs, i, actual)
    {
      if !Usable(entries[i], canonical) {
        assert entries[i] in entries;
        return false;
      }
      SeenMore(cs, i, actual);
      if cs[i] in actual {
        return false;
      }
      actual := actual + {cs[i]};
    }
    assert entries[..|entries|] == entries && cs[..|cs|] == cs;
    SizeDistinct(cs);
    SizeDistinct(expected);
    if |actual| != |expected| {
      return false;
    }
    for i := 0 to |expected|
      invariant forall x :: x in expected[..i] ==> x in actual
    {
      if expected[i] !in actual {
        assert expected[i] in Members(expected);
        return false;
      }
    }
    assert expected[..|expected|] == expected;
    SubsetOfSameSize(Members(expected), actual);
    return true;
  }

  /** The interface's address set holds exactly the signed addresses. */
  predicate FilterExact(f: Firewall, e: Delivery, canonical: string -> Option<string>) {
    SetName(e.iface) in f.sets && Denotes(f.sets[SetName(e.iface)], e.cidrs, canonical)
  }

  /** The firewall is enforced with exactly the signed addresses, or is off. */
  predicate FirewallProven(f: Firewall, e: Delivery, canonical: string -> Option<string>) {
    if e.firewall then f.enable && FilterExact(f, e, canonical) else !f.enable
  }

  // --------------------------------------------------------------- Whole guests

  predicate NicProven(g: Setup, e: Delivery, tools: Tools) {
    var text := ConfigString(g.config, e.iface);
    && text.Some?
    && NetworkMatches(g.config, text.value, e, tools.format)
    && FirewallProven(g.firewall, e, tools.canonical)
  }

  /** Every signed interface of the guest is as signed. */
  predicate Proven(g: Setup, expected: seq<Delivery>, tools: Tools) {
    forall e :: e in expected ==> NicProven(g, e, tools)
  }

  // -------------------------------------------------------- The signed delivery

  function Names(expected: seq<Delivery>): seq<string> {
    seq(|expected|, i requires 0 <= i < |expected| => expected[i].iface)
  }

  function Macs(expected: seq<Delivery>): seq<string> {
    seq(|expected|, i requires 0 <= i < |expected| => expected[i].mac)
  }

  /** An enforced interface names addresses, a customer-controlled one names none. */
  predicate Plausible(e: Delivery, firewall: bool, wellFormed: Delivery -> bool) {
    wellFormed(e) && e.firewall == firewall && (e.firewall <==> e.cidrs != [])
  }

  /** Distinct interfaces and hardware addresses, and one firewall state for the whole
      guest. */
  predicate ValidDelivery(expected: seq<Delivery>, wellFormed: Delivery -> bool) {
    && 1 <= |expected| <= 8
    && Distinct(Names(expected)) && Distinct(Macs(expected))
    && forall e :: e in expected ==> Plausible(e, expected[0].firewall, wellFormed)
  }

  /** What a validator has seen of a list whose members must differ. */
  predicate Seen(s: seq<string>, i: nat, seen: set<string>)
    requires i <= |s|
  {
    Distinct(s[..i]) && seen == Members(s[..i])
  }

  lemma SeenMore(s: seq<string>, i: nat, seen: set<string>)
    requires i < |s| && Seen(s, i, seen)
    ensures s[i] in seen ==> !Distinct(s)
    ensures s[i] !in seen ==> Seen(s, i + 1, seen + {s[i]})
  {
    assert s[..i + 1][..i] == s[..i] && s[..i + 1] == s[..i] + [s[i]];
    MembersSnoc(s[..i + 1]);
    if s[i] !in seen {
      DistinctSnoc(s[..i], s[i]);
    }
  }

  /** The validator's single pass, which remembers the interfaces and addresses it has
      seen and the previous interface's firewall state. */
  method CheckDelivery(expected: seq<Delivery>, wellFormed: Delivery -> bool) returns (ok: bool)
    ensures ok <==> ValidDelivery(expected, wellFormed)
  {
    if |expected| < 1 || |expected| > 8 {
      return false;
    }
    var seen: set<string>, seenMac: set<string>, firewall := {}, {}, expected[0].firewall;
    for i := 0 to |expected|
      invariant Seen(Names(expected), i, seen) && Seen(Macs(expected), i, seenMac)
      invariant firewall == expected[0].firewall
      invariant forall e :: e in expected[..i] ==> Plausible(e, expected[0].firewall, wellFormed)
    {
      var e := expected[i];
      assert e in expected && expected[..i + 1] == expected[..i] + [e];
      SeenMore(Names(expected), i, seen);
      SeenMore(Macs(expected), i, seenMac);
      if !wellFormed(e) || e.iface in seen || e.mac in seenMac {
        return false;
      }
      if firewall != e.firewall || e.firewall != (e.cidrs != []) {
        return false;
      }
      seen, seenMac, firewall := seen + {e.iface}, seenMac + {e.mac}, e.firewall;
    }
    assert expected[..|expected|] == expected && Names(expected)[..|expected|] == Names(expected);
    assert Macs(expected)[..|expected|] == Macs(expected);
    return true;
  }

  function NicNames(nics: seq<Nic>): seq<string> {
    seq(|nics|, i requires 0 <= i < |nics| => nics[i].iface)
  }

  /** Some expected interface is the listed one, with the same settings. */
  predicate Listed(n: Nic, expected: seq<Delivery>) {
    exists e :: e in expected && e.iface == n.iface && Supplies(n.settings, e)
  }

  /** What validation demands of the listed interfaces: as many as expected, and each
      of them an expected one. */
  predicate ValidNics(nics: seq<Nic>, expected: seq<Delivery>) {
    |nics| == |expected| && PlainNics(nics) && forall n :: n in nics ==> Listed(n, expected)
  }

  predicate PlainNics(nics: seq<Nic>) {
    forall n :: n in nics ==> Admissible(n.settings) && "net" <= n.iface
  }

  /** Validation compares only lengths and membership, so an interface may be listed
      twice in another's place. Every expected interface is reapplied exactly when no
      interface is listed twice. */
  lemma EveryNicReapplied(listed: seq<string>, expected: seq<string>)
    requires |listed| == |expected| && Distinct(expected)
    requires forall x :: x in listed ==> x in expected
    ensures (forall x :: x in expected ==> x in listed) <==> Distinct(listed)
  {
    var a, b := Members(listed), Members(expected);
    SizeDistinct(expected);
    assert a <= b;
    if Distinct(listed) {
      SizeDistinct(listed);
      SubsetOfSameSize(a, b);
      assert forall x :: x in expected ==> x in b;
    }
    if forall x :: x in expected ==> x in listed {
      assert a == b;
      SizeDistinct(listed);
    }
  }

  /** The input that shows it: one interface listed twice passes for two expected ones,
      and the other is never reapplied. */
  lemma DuplicateHidesInterface(n: Nic, a: Delivery, b: Delivery)
    requires Admissible(n.settings) && "net" <= n.iface && a.iface == n.iface && Supplies(n.settings, a) && b.iface != n.iface
    ensures ValidNics([n, n], [a, b]) && Distinct(Names([a, b])) && b.iface !in NicNames([n, n])
  {
    assert a in [a, b];
    assert Listed(n, [a, b]);
  }

  // ------------------------------------------------------------- Other settings

  /** The changes concern no interface. */
  predicate NetworkFree(changes: map<string, string>) {
    forall k :: k in changes ==> !("net" <= k) && !("ipconfig" <= k)
  }

  /** Such changes leave every interface's texts alone. */
  lemma ChangesAgree(config: map<string, string>, changes: map<string, string>, iface: string)
    requires NetworkFree(changes) && "net" <= iface
    ensures AgreeOn(config, config + changes, iface)
  {
    assert "ipconfig" <= AddressKey(iface);
  }

  /** Everything but the interfaces is the same. */
  ghost predicate SameSettings(a: map<string, string>, b: map<string, string>) {
    forall k :: !("net" <= k) && !("ipconfig" <= k) ==> SameAt(a, b, k)
  }

  lemma SameSettingsAgain(a: map<string, string>, b: map<string, string>, c: map<string, string>)
    requires SameSettings(a, b) && SameSettings(b, c)
    ensures SameSettings(a, c)
  {
    forall k | !("net" <= k) && !("ipconfig" <= k) ensures SameAt(a, c, k) {
      assert SameAt(a, b, k) && SameAt(b, c, k);
    }
  }

  /** Settings that concern no interface stay. */
  lemma HasStays(config: map<string, string>, next: map<string, string>, settings: map<string, string>)
    requires Has(config, settings) && NetworkFree(settings) && SameSettings(config, next)
    ensures Has(next, settings)
  {
    forall k | k in settings ensures k in next && next[k] == settings[k] {
      assert SameAt(config, next, k);
    }
  }

  lemma NicKeepsSettings(config: map<string, string>, next: map<string, string>, iface: string)
    requires SameElsewhere(config, next, iface) && "net" <= iface
    ensures SameSettings(config, next)
  {
    assert "ipconfig" <= AddressKey(iface);
  }

  /** The configuration has all of these settings. */
  predicate Has(config: map<string, string>, settings: map<string, string>) {
    forall k :: k in settings ==> k in config && config[k] == settings[k]
  }

  /** Later settings prevail over earlier ones, here as there. */
  lemma HasMore(config: map<string, string>, settings: map<string, string>, a: map<string, string>, b: map<string, string>,
                c: map<string, string>)
    requires Has(config, settings)
    ensures Has(config + a + b + c, settings + a + b + c)
  {
  }

  /** None of the address sets that have to be built exists yet. */
  predicate SetsAbsent(f: Firewall, expected: seq<Delivery>) {
    forall e :: e in expected ==> SetName(e.iface) !in f.sets
  }

  /** The sets are those there were and those of the interfaces done so far. */
  predicate SetsBuilt(was: Firewall, now: Firewall, done: seq<Delivery>) {
    now.sets.Keys == was.sets.Keys + set e | e in done :: SetName(e.iface)
  }

  /** The next interface's set is there only if it was there before. */
  lemma NextSet(was: Firewall, now: Firewall, expected: seq<Delivery>, i: nat)
    requires i < |expected| && SetsBuilt(was, now, expected[..i]) && NewIface(expected, i)
    ensures SetName(expected[i].iface) in now.sets <==> SetName(expected[i].iface) in was.sets
    ensures SetsAbsent(was, expected[..i + 1]) <==> SetsAbsent(was, expected[..i]) && SetName(expected[i].iface) !in was.sets
    ensures SetsAbsent(was, expected) ==> SetName(expected[i].iface) !in was.sets
    ensures forall f: Firewall :: f.sets.Keys == now.sets.Keys + {SetName(expected[i].iface)} ==> SetsBuilt(was, f, expected[..i + 1])
  {
    assert expected[..i + 1] == expected[..i] + [expected[i]] && expected[i] in expected;
    forall e | e in expected[..i] ensures SetName(e.iface) != SetName(expected[i].iface) {
      SetNamesDiffer(e.iface, expected[i].iface);
    }
  }

  // ------------------------------------------------------- Building the filters

  /** The members that adding the addresses one by one leaves in a new set. */
  function Entries(cidrs: seq<string>): seq<Entry> {
    seq(|cidrs|, i requires 0 <= i < |cidrs| => Entry(cidrs[i], false))
  }

  /** The sets the firewall still lacks do not matter; those listed are complete. */
  predicate FiltersReady(f: Firewall, expected: seq<Delivery>) {
    expected != [] ==>
      var e := expected[|expected| - 1];
      && FiltersReady(f, expected[..|expected| - 1])
      && SetName(e.iface) in f.sets && f.sets[SetName(e.iface)] == Entries(e.cidrs)
  }

  lemma SetNamesDiffer(a: string, b: string)
    requires a != b
    ensures SetName(a) != SetName(b)
  {
    assert SetName(a)[9..] == a && SetName(b)[9..] == b;
  }

  /** Writing another interface's set leaves the finished ones alone. */
  lemma {:induction false} FiltersStayReady(f: Firewall, expected: seq<Delivery>, iface: string, entries: seq<Entry>)
    requires FiltersReady(f, expected) && forall e :: e in expected ==> e.iface != iface
    ensures FiltersReady(f.(sets := f.sets[SetName(iface) := entries]), expected)
  {
    if expected != [] {
      var n := |expected| - 1;
      SetNamesDiffer(expected[n].iface, iface);
      FiltersStayReady(f, expected[..n], iface, entries);
    }
  }

  /** The interface does not occur among those before it. */
  predicate NewIface(expected: seq<Delivery>, i: nat)
    requires i < |expected|
  {
    forall e :: e in expected[..i] ==> e.iface != expected[i].iface
  }

  lemma NewIfaces(expected: seq<Delivery>)
    requires Distinct(Names(expected))
    ensures forall i :: 0 <= i < |expected| ==> NewIface(expected, i)
  {
    forall i, e | 0 <= i < |expected| && e in expected[..i] ensures e.iface != expected[i].iface {
      var j :| 0 <= j < i && expected[j] == e;
      assert Names(expected)[j] != Names(expected)[i];
    }
  }

  lemma FilterAdded(f: Firewall, expected: seq<Delivery>, i: nat)
    requires i < |expected| && FiltersReady(f, expected[..i]) && NewIface(expected, i)
    ensures FiltersReady(f.(sets := f.sets[SetName(expected[i].iface) := Entries(expected[i].cidrs)]), expected[..i + 1])
  {
    assert expected[..i + 1][..i] == expected[..i];
    FiltersStayReady(f, expected[..i], expected[i].iface, Entries(expected[i].cidrs));
  }

  lemma {:induction false} FiltersIgnoreSwitch(f: Firewall, enable: bool, expected: seq<Delivery>)
    ensures FiltersReady(f.(enable := enable), expected) == FiltersReady(f, expected)
  {
    if expected != [] {
      FiltersIgnoreSwitch(f, enable, expected[..|expected| - 1]);
    }
  }

  lemma EntriesDenote(cidrs: seq<string>, canonical: string -> Option<string>)
    requires SignedAddresses(cidrs, canonical)
    ensures Denotes(Entries(cidrs), cidrs, canonical)
  {
    forall i | 0 <= i < |cidrs| ensures Canonicals(Entries(cidrs), canonical)[i] == cidrs[i] {
      assert cidrs[i] in cidrs;
    }
    assert Canonicals(Entries(cidrs), canonical) == cidrs;
  }

  /** Complete sets behind an enforced firewall prove every interface of it. */
  lemma {:induction false} ReadyFiltersProve(f: Firewall, expected: seq<Delivery>, canonical: string -> Option<string>)
    requires FiltersReady(f, expected) && f.enable
    requires forall e :: e in expected ==> e.firewall && SignedAddresses(e.cidrs, canonical)
    ensures forall e :: e in expected ==> FirewallProven(f, e, canonical)
  {
    if expected != [] {
      var n := |expected| - 1;
      ReadyFiltersProve(f, expected[..n], canonical);
      EntriesDenote(expected[n].cidrs, canonical);
      assert expected == expected[..n] + [expected[n]];
    }
  }

  // ------------------------------------------------------- Reapplying interfaces

  /** The interface text carries the signed settings over the old ones. */
  predicate NicText(was: string, text: string, p: Network) {
    Fields(Split(text, ',')) == MergedFields(MODELS, was, p.model, p.mac, Changes(Qemu, p))
  }

  predicate AddressText(was: string, text: string, p: Network) {
    Fields(Split(text, ',')) == Override(Fields(Split(was, ',')), AddressChanges(p))
  }

  predicate SignsAddresses(p: Network) {
    p.ipv4.Some? || p.ipv6.Some? || p.gateway4.Some? || p.gateway6.Some?
  }

  function AddressesOf(config: map<string, string>, iface: string): string {
    var text := ConfigString(config, AddressKey(iface));
    if text.Some? then text.value else ""
  }

  /** `next` is the configuration with one interface's signed settings merged in. */
  predicate NicApplied(config: map<string, string>, next: map<string, string>, n: Nic) {
    && n.iface in config && n.iface in next
    && Mergeable(MODELS, config[n.iface], n.settings.model, n.settings.mac)
    && AllPairs(Split(next[n.iface], ','))
    && NicText(config[n.iface], next[n.iface], n.settings)
    && (SignsAddresses(n.settings) ==>
          && AddressKey(n.iface) in next
          && AddressText(AddressesOf(config, n.iface), next[AddressKey(n.iface)], n.settings))
  }

  /** The interface's texts are exactly those that merging leaves. */
  predicate NicWritten(config: map<string, string>, next: map<string, string>, n: Nic) {
    && n.iface in config && n.iface in next && next[n.iface] == TextFor(config, n)
    && (SignsAddresses(n.settings) ==> AddressKey(n.iface) in next && next[AddressKey(n.iface)] == AddressesFor(config, n))
  }

  /** The interface text that merging leaves. */
  function TextFor(config: map<string, string>, n: Nic): string
    requires n.iface in config
  {
    NetworkText(Qemu, config[n.iface], n.settings)
  }

  /** The address text that merging leaves. */
  function AddressesFor(config: map<string, string>, n: Nic): string {
    AddressesText(AddressesOf(config, n.iface), n.settings)
  }

  predicate NicMergeable(config: map<string, string>, n: Nic) {
    ConfigString(config, n.iface).Some? && Mergeable(MODELS, config[n.iface], n.settings.model, n.settings.mac)
  }

  predicate AddressesMergeable(config: map<string, string>, n: Nic) {
    var was := AddressesOf(config, n.iface);
    was == "" || AllPairs(Split(was, ','))
  }

  /** When the signed settings of an interface can be merged in. */
  predicate NicMerges(config: map<string, string>, n: Nic) {
    NicMergeable(config, n) && (SignsAddresses(n.settings) ==> AddressesMergeable(config, n))
  }

  /** The interface text with the signed settings merged in. */
  method MergeNicText(config: map<string, string>, n: Nic) returns (r: Result<string>)
    requires Admissible(n.settings)
    ensures r.Ok? <==> NicMergeable(config, n)
    ensures r.Ok? ==> NicReady(config, r.value, n)
    ensures r.Ok? ==> n.iface in config && r.value == TextFor(config, n)
  {
    var text := ConfigString(config, n.iface);
    if text == None {
      return Err;
    }
    r := MergeNetwork(Qemu, text.value, n.settings);
  }

  method MergeNicAddresses(config: map<string, string>, n: Nic) returns (r: Result<string>)
    requires Admissible(n.settings)
    ensures r.Ok? <==> AddressesMergeable(config, n)
    ensures r.Ok? ==> AddressText(AddressesOf(config, n.iface), r.value, n.settings) && r.value == AddressesFor(config, n)
  {
    r := MergeAddresses(AddressesOf(config, n.iface), n.settings);
  }

  lemma AddressKeyDiffers(iface: string)
    ensures AddressKey(iface) != iface
  {
    assert |AddressKey(iface)| > |iface|;
  }

  /** The parts of a merged interface that do not depend on its address text. */
  predicate NicReady(config: map<string, string>, text: string, n: Nic) {
    && n.iface in config
    && Mergeable(MODELS, config[n.iface], n.settings.model, n.settings.mac)
    && AllPairs(Split(text, ',')) && NicText(config[n.iface], text, n.settings)
  }

  lemma NicWithoutAddresses(config: map<string, string>, text: string, n: Nic)
    requires NicReady(config, text, n) && !SignsAddresses(n.settings)
    ensures NicApplied(config, config[n.iface := text], n)
  {
  }

  lemma NicWithAddresses(config: map<string, string>, text: string, addresses: string, n: Nic)
    requires NicReady(config, text, n) && AddressText(AddressesOf(config, n.iface), addresses, n.settings)
    ensures NicApplied(config, config[n.iface := text][AddressKey(n.iface) := addresses], n)
  {
    AddressKeyDiffers(n.iface);
    var next := config[n.iface := text][AddressKey(n.iface) := addresses];
    assert next[n.iface] == text && next[AddressKey(n.iface)] == addresses;
  }

  /** Only the interface's own two keys may differ. */
  ghost predicate SameElsewhere(config: map<string, string>, next: map<string, string>, iface: string) {
    forall k :: k != iface && k != AddressKey(iface) ==> SameAt(config, next, k)
  }

  lemma OwnKeysChange(config: map<string, string>, iface: string, key: string, text: string, addresses: string)
    requires key == AddressKey(iface)
    ensures SameElsewhere(config, config[iface := text], iface)
    ensures SameElsewhere(config, config[iface := text][key := addresses], iface)
  {
  }

  /** All of the interfaces can be merged in. */
  predicate Merges(config: map<string, string>, nics: seq<Nic>) {
    forall n :: n in nics ==> NicMerges(config, n)
  }

  /** All of the interfaces have been merged in. */
  predicate Applied(was: map<string, string>, config: map<string, string>, nics: seq<Nic>) {
    (forall n :: n in nics ==> NicApplied(was, config, n)) && (forall n :: n in nics ==> NicWritten(was, config, n))
  }

  lemma MergesSnoc(config: map<string, string>, nics: seq<Nic>, i: nat)
    requires i < |nics|
    ensures Merges(config, nics[..i + 1]) <==> Merges(config, nics[..i]) && Merges(config, [nics[i]])
    ensures Merges(config, nics) ==> Merges(config, [nics[i]])
  {
    assert nics[..i + 1] == nics[..i] + [nics[i]];
    assert nics[i] in nics && nics[i] in [nics[i]];
  }

  lemma AppliedOne(config: map<string, string>, next: map<string, string>, n: Nic)
    requires NicApplied(config, next, n) && NicWritten(config, next, n)
    ensures Applied(config, next, [n])
  {
  }

  lemma WrittenOne(config: map<string, string>, text: string, addresses: string, n: Nic)
    requires n.iface in config && text == TextFor(config, n)
    ensures !SignsAddresses(n.settings) ==> NicWritten(config, config[n.iface := text], n)
    ensures addresses == AddressesFor(config, n) ==> NicWritten(config, config[n.iface := text][AddressKey(n.iface) := addresses], n)
  {
    AddressKeyDiffers(n.iface);
  }

  /** The configuration the target gets: only the interface's own two keys change. */
  method MergeNic(config: map<string, string>, n: Nic) returns (r: Result<map<string, string>>)
    requires Admissible(n.settings)
    ensures r.Ok? <==> Merges(config, [n])
    ensures r.Ok? ==> Applied(config, r.value, [n]) && SameElsewhere(config, r.value, n.iface)
  {
    assert n in [n];
    var merged := MergeNicText(config, n);
    if merged.Err? {
      return Err;
    }
    if !SignsAddresses(n.settings) {
      NicWithoutAddresses(config, merged.value, n);
      WrittenOne(config, merged.value, "", n);
      AppliedOne(config, config[n.iface := merged.value], n);
      OwnKeysChange(config, n.iface, AddressKey(n.iface), merged.value, "");
      return Ok(config[n.iface := merged.value]);
    }
    var addresses := MergeNicAddresses(config, n);
    if addresses.Err? {
      return Err;
    }
    var next := config[n.iface := merged.value][AddressKey(n.iface) := addresses.value];
    NicWithAddresses(config, merged.value, addresses.value, n);
    WrittenOne(config, merged.value, addresses.value, n);
    AppliedOne(config, next, n);
    OwnKeysChange(config, n.iface, AddressKey(n.iface), merged.value, addresses.value);
    return Ok(next);
  }

  /** Both configurations have the same two texts for the interface. */
  predicate AgreeOn(a: map<string, string>, b: map<string, string>, iface: string) {
    SameAt(a, b, iface) && SameAt(a, b, AddressKey(iface))
  }

  lemma NicAppliedFrom(was: map<string, string>, config: map<string, string>, next: map<string, string>, n: Nic)
    requires AgreeOn(was, config, n.iface) && NicApplied(config, next, n)
    ensures NicApplied(was, next, n)
  {
  }

  lemma NicWrittenFrom(was: map<string, string>, config: map<string, string>, next: map<string, string>, n: Nic)
    requires AgreeOn(was, config, n.iface) && NicWritten(config, next, n)
    ensures NicWritten(was, next, n)
  {
    assert AddressesOf(was, n.iface) == AddressesOf(config, n.iface);
  }

  lemma NicAppliedTo(was: map<string, string>, config: map<string, string>, next: map<string, string>, n: Nic)
    requires NicApplied(was, config, n) && AgreeOn(config, next, n.iface)
    ensures NicApplied(was, next, n)
  {
  }

  lemma NicWrittenTo(was: map<string, string>, config: map<string, string>, next: map<string, string>, n: Nic)
    requires NicWritten(was, config, n) && AgreeOn(config, next, n.iface)
    ensures NicWritten(was, next, n)
  {
  }

  lemma NicMergesAlike(was: map<string, string>, config: map<string, string>, n: Nic)
    requires AgreeOn(was, config, n.iface)
    ensures Merges(was, [n]) == Merges(config, [n])
  {
    assert n in [n];
    assert NicMerges(was, n) == NicMerges(config, n);
  }

  lemma KeysDiffer(a: string, b: string)
    requires "net" <= a && "net" <= b && a != b
    ensures a != AddressKey(b) && AddressKey(a) != b && AddressKey(a) != AddressKey(b)
  {
    assert a[0] == 'n' && b[0] == 'n' && AddressKey(a)[0] == 'i' && AddressKey(b)[0] == 'i';
    assert AddressKey(a)[8..] == a[3..] && AddressKey(b)[8..] == b[3..];
    assert a == "net" + a[3..] && b == "net" + b[3..];
  }

  /** Changing one interface leaves the texts of another alone. */
  lemma OthersAgree(config: map<string, string>, next: map<string, string>, changed: string, iface: string)
    requires SameElsewhere(config, next, changed) && "net" <= changed && "net" <= iface && changed != iface
    ensures AgreeOn(config, next, iface)
  {
    KeysDiffer(changed, iface);
  }

  /** Of distinct interfaces the first have been reapplied and the rest are untouched. */
  predicate Reapplied(was: map<string, string>, config: map<string, string>, done: seq<Nic>, rest: seq<Nic>) {
    Applied(was, config, done) && AllAgreeOn(was, config, rest)
  }

  lemma ReappliedNext(was: map<string, string>, config: map<string, string>, next: map<string, string>, nics: seq<Nic>, i: nat)
    requires i < |nics| && Distinct(NicNames(nics)) && PlainNics(nics)
    requires Reapplied(was, config, nics[..i], nics[i..])
    requires Applied(config, next, [nics[i]]) && SameElsewhere(config, next, nics[i].iface)
    ensures Reapplied(was, next, nics[..i + 1], nics[i + 1..])
  {
    assert nics[i] in nics[i..];
    AppliedFrom(was, config, next, [nics[i]]);
    KeptApplied(was, config, next, nics, i);
    AppliedSnoc(was, next, nics, i);
    RestAgrees(was, config, next, nics, i);
  }

  lemma AppliedSnoc(was: map<string, string>, config: map<string, string>, nics: seq<Nic>, i: nat)
    requires i < |nics| && Applied(was, config, nics[..i]) && Applied(was, config, [nics[i]])
    ensures Applied(was, config, nics[..i + 1])
  {
    assert nics[..i + 1] == nics[..i] + [nics[i]];
  }

  /** The interfaces have the same texts in both. */
  predicate AllAgreeOn(a: map<string, string>, b: map<string, string>, nics: seq<Nic>) {
    forall n :: n in nics ==> AgreeOn(a, b, n.iface)
  }

  lemma RestAgrees(was: map<string, string>, config: map<string, string>, next: map<string, string>, nics: seq<Nic>, i: nat)
    requires i < |nics| && Distinct(NicNames(nics)) && PlainNics(nics)
    requires AllAgreeOn(was, config, nics[i..]) && SameElsewhere(config, next, nics[i].iface)
    ensures AllAgreeOn(was, next, nics[i + 1..])
  {
    forall n | n in nics[i + 1..] ensures AgreeOn(was, next, n.iface) {
      var j :| i < j < |nics| && nics[j] == n;
      assert NicNames(nics)[i] != NicNames(nics)[j] && n in nics[i..] && n in nics && nics[i] in nics;
      OthersAgree(config, next, nics[i].iface, n.iface);
    }
  }

  lemma KeptApplied(was: map<string, string>, config: map<string, string>, next: map<string, string>, nics: seq<Nic>, i: nat)
    requires i < |nics| && Distinct(NicNames(nics)) && PlainNics(nics)
    requires Applied(was, config, nics[..i]) && SameElsewhere(config, next, nics[i].iface)
    ensures Applied(was, next, nics[..i])
  {
    forall n | n in nics[..i] ensures AgreeOn(config, next, n.iface) {
      var j :| 0 <= j < i && nics[j] == n;
      assert NicNames(nics)[j] != NicNames(nics)[i] && n in nics && nics[i] in nics;
      OthersAgree(config, next, nics[i].iface, n.iface);
    }
    AppliedTo(was, config, next, nics[..i]);
  }

  /** What a reapplied interface needs for the read-back to accept it: no stray old VLAN
      tag, and an address text that can be read. */
  lemma ReappliedNicMatches(config: map<string, string>, next: map<string, string>, n: Nic, e: Delivery, format: string -> string)
    requires NicApplied(config, next, n) && Admissible(n.settings) && Supplies(n.settings, e) && e.iface == n.iface
    ensures NetworkMatches(next, next[n.iface], e, format) <==>
            && TagMatches(if n.settings.vlan.Some? then Itoa(n.settings.vlan.value)
                          else Get(Fields(Split(config[n.iface], ',')), "tag"), e.vlan)
            && next[AddressKey(n.iface)] != "" && SafeText(next[AddressKey(n.iface)])
  {
    MergedNetworkMatches(config[n.iface], AddressesOf(config, n.iface), n.settings, e, next[n.iface],
                         next[AddressKey(n.iface)], next, format);
  }

  predicate TagAccepts(was: map<string, string>, n: Nic, e: Delivery)
    requires n.iface in was
  {
    TagMatches(if n.settings.vlan.Some? then Itoa(n.settings.vlan.value)
               else Get(Fields(Split(was[n.iface], ',')), "tag"), e.vlan)
  }

  predicate Legible(text: string) {
    text != "" && SafeText(text)
  }

  /** What one interface needs of the configuration it is merged into: no stray VLAN tag,
      and merged texts that can be read back. */
  predicate NicDeliverable(was: map<string, string>, n: Nic, e: Delivery) {
    && n.iface in was && TagAccepts(was, n, e)
    && Legible(TextFor(was, n)) && Legible(AddressesFor(was, n))
  }

  lemma ReappliedNicReads(was: map<string, string>, g: Setup, n: Nic, e: Delivery, tools: Tools)
    requires NicApplied(was, g.config, n) && Admissible(n.settings) && Supplies(n.settings, e) && e.iface == n.iface
    ensures NicProven(g, e, tools) <==>
            && TagAccepts(was, n, e) && Legible(g.config[n.iface]) && Legible(g.config[AddressKey(n.iface)])
            && FirewallProven(g.firewall, e, tools.canonical)
  {
    assert SignsAddresses(n.settings);
    ReappliedNicMatches(was, g.config, n, e, tools.format);
  }

  lemma ReappliedNicProven(was: map<string, string>, g: Setup, n: Nic, e: Delivery, tools: Tools)
    requires NicApplied(was, g.config, n) && Admissible(n.settings) && Supplies(n.settings, e) && e.iface == n.iface
    requires NicWritten(was, g.config, n)
    ensures NicProven(g, e, tools) <==> NicDeliverable(was, n, e) && FirewallProven(g.firewall, e, tools.canonical)
  {
    ReappliedNicReads(was, g, n, e, tools);
    assert SignsAddresses(n.settings);
  }

  /** Every interface can be delivered into the configuration. */
  predicate Deliverable(was: map<string, string>, nics: seq<Nic>, expected: seq<Delivery>) {
    forall n, e :: n in nics && e in expected && n.iface == e.iface ==> NicDeliverable(was, n, e)
  }

  predicate Firewalled(f: Firewall, expected: seq<Delivery>, canonical: string -> Option<string>) {
    forall e :: e in expected ==> FirewallProven(f, e, canonical)
  }

  /** The expected interface a listed one stands for. */
  lemma ListedAs(nics: seq<Nic>, expected: seq<Delivery>, n: Nic, e: Delivery)
    requires ValidNics(nics, expected) && Distinct(Names(expected)) && n in nics && e in expected && e.iface == n.iface
    ensures Admissible(n.settings) && Supplies(n.settings, e)
  {
    assert Listed(n, expected);
    var other :| other in expected && other.iface == n.iface && Supplies(n.settings, other);
    var i :| 0 <= i < |expected| && expected[i] == e;
    var j :| 0 <= j < |expected| && expected[j] == other;
    assert Names(expected)[i] == Names(expected)[j];
  }

  /** Every expected interface is among the names. */
  predicate AllNamed(expected: seq<Delivery>, names: seq<string>) {
    forall e :: e in expected ==> e.iface in names
  }

  lemma NamesCovered(nics: seq<Nic>, expected: seq<Delivery>)
    requires ValidNics(nics, expected) && Distinct(Names(expected))
    ensures AllNamed(expected, NicNames(nics)) <==> Distinct(NicNames(nics))
  {
    forall x | x in NicNames(nics) ensures x in Names(expected) {
      var i :| 0 <= i < |nics| && NicNames(nics)[i] == x;
      assert nics[i] in nics && Listed(nics[i], expected);
      var e :| e in expected && e.iface == nics[i].iface && Supplies(nics[i].settings, e);
      var j :| 0 <= j < |expected| && expected[j] == e;
      assert Names(expected)[j] == x;
    }
    EveryNicReapplied(NicNames(nics), Names(expected));
    if forall e :: e in expected ==> e.iface in NicNames(nics) {
      forall x | x in Names(expected) ensures x in NicNames(nics) {
        var j :| 0 <= j < |expected| && Names(expected)[j] == x;
        assert expected[j] in expected;
      }
    }
    if forall x :: x in Names(expected) ==> x in NicNames(nics) {
      forall e | e in expected ensures e.iface in NicNames(nics) {
        var j :| 0 <= j < |expected| && expected[j] == e;
        assert Names(expected)[j] == e.iface;
      }
    }
  }

  /** A guest whose interfaces were all reapplied is proven exactly when each could be
      delivered and the firewall is as signed. */
  lemma ReappliedGuestProven(was: map<string, string>, g: Setup, nics: seq<Nic>, expected: seq<Delivery>, tools: Tools)
    requires ValidNics(nics, expected) && Distinct(Names(expected)) && Distinct(NicNames(nics))
    requires Applied(was, g.config, nics)
    ensures Proven(g, expected, tools) <==> Deliverable(was, nics, expected) && Firewalled(g.firewall, expected, tools.canonical)
  {
    if Proven(g, expected, tools) {
      forall n, e | n in nics && e in expected && n.iface == e.iface ensures NicDeliverable(was, n, e) {
        ReappliedPair(was, g, nics, expected, tools, n, e);
      }
    }
    if Deliverable(was, nics, expected) && Firewalled(g.firewall, expected, tools.canonical) {
      forall e | e in expected ensures NicProven(g, e, tools) {
        var n := NicFor(nics, expected, e);
        ReappliedPair(was, g, nics, expected, tools, n, e);
      }
    }
  }

  lemma ReappliedPair(was: map<string, string>, g: Setup, nics: seq<Nic>, expected: seq<Delivery>, tools: Tools, n: Nic, e: Delivery)
    requires ValidNics(nics, expected) && Distinct(Names(expected)) && n in nics && e in expected && n.iface == e.iface
    requires NicApplied(was, g.config, n) && NicWritten(was, g.config, n)
    ensures NicProven(g, e, tools) <==> NicDeliverable(was, n, e) && FirewallProven(g.firewall, e, tools.canonical)
  {
    ListedAs(nics, expected, n, e);
    ReappliedNicProven(was, g, n, e, tools);
  }

  lemma NicFor(nics: seq<Nic>, expected: seq<Delivery>, e: Delivery) returns (n: Nic)
    requires ValidNics(nics, expected) && Distinct(Names(expected)) && Distinct(NicNames(nics)) && e in expected
    ensures n in nics && n.iface == e.iface
  {
    NamesCovered(nics, expected);
    var i :| 0 <= i < |nics| && NicNames(nics)[i] == e.iface;
    n := nics[i];
  }

  lemma AppliedFrom(was: map<string, string>, config: map<string, string>, next: map<string, string>, nics: seq<Nic>)
    requires Applied(config, next, nics) && AllAgreeOn(was, config, nics)
    ensures Applied(was, next, nics)
  {
    forall n | n in nics ensures NicApplied(was, next, n) && NicWritten(was, next, n) {
      NicAppliedFrom(was, config, next, n);
      NicWrittenFrom(was, config, next, n);
    }
  }

  lemma AppliedTo(was: map<string, string>, config: map<string, string>, next: map<string, string>, nics: seq<Nic>)
    requires Applied(was, config, nics) && AllAgreeOn(config, next, nics)
    ensures Applied(was, next, nics)
  {
    forall n | n in nics ensures NicApplied(was, next, n) && NicWritten(was, next, n) {
      NicAppliedTo(was, config, next, n);
      NicWrittenTo(was, config, next, n);
    }
  }

  lemma MergesAlike(was: map<string, string>, config: map<string, string>, nics: seq<Nic>)
    requires AllAgreeOn(was, config, nics)
    ensures Merges(was, nics) <==> Merges(config, nics)
  {
    forall n | n in nics ensures NicMerges(was, n) == NicMerges(config, n) {
      NicMergesAlike(was, config, n);
      assert n in [n];
    }
  }

  lemma AllAgree(config: map<string, string>, changes: map<string, string>, nics: seq<Nic>)
    requires NetworkFree(changes) && PlainNics(nics)
    ensures AllAgreeOn(config, config + changes, nics)
  {
    forall n | n in nics ensures AgreeOn(config, config + changes, n.iface) {
      ChangesAgree(config, changes, n.iface);
    }
  }

  /** Three changes in a row that concern no interface. */
  lemma RestAgreesOn(config: map<string, string>, a: map<string, string>, b: map<string, string>, c: map<string, string>, nics: seq<Nic>)
    requires NetworkFree(a) && NetworkFree(b) && NetworkFree(c) && PlainNics(nics)
    ensures AllAgreeOn(config, config + a + b + c, nics)
  {
    AllAgree(config, a, nics);
    AllAgree(config + a, b, nics);
    AllAgree(config + a + b, c, nics);
  }

  /** What was merged into a configuration with the same interfaces is as good. */
  lemma AppliedOver(was: map<string, string>, config: map<string, string>, next: map<string, string>, nics: seq<Nic>)
    requires AllAgreeOn(was, config, nics)
    ensures Applied(config, next, nics) ==> Applied(was, next, nics)
    ensures Merges(was, nics) <==> Merges(config, nics)
  {
    MergesAlike(was, config, nics);
    if Applied(config, next, nics) {
      AppliedFrom(was, config, next, nics);
    }
  }
}

/** A disk's text: the writer that replaces its throughput limits, the separate
    reader that judges them, and the command that uses both. */
module DiskLimits {
  import opened Common
  import opened Text
  import opened OptionText
  import GuestNetwork

  datatype Limits = Limits(
    iopsRead: Option<int>, iopsWrite: Option<int>, iopsReadMax: Option<int>, iopsWriteMax: Option<int>,
    iopsReadMaxLength: Option<int>, iopsWriteMaxLength: Option<int>,
    mbpsRead: Option<int>, mbpsWrite: Option<int>, mbpsReadMax: Option<int>, mbpsWriteMax: Option<int>)

  /** A limit that is not wanted must be absent. */
  function Limit(n: Option<int>): Edit {
    if n.Some? then Put(Itoa(n.value)) else Drop
  }

  /** The managed keys, in the order they are written. */
  const KEYS: seq<string> :=
    ["iops_rd", "iops_wr", "iops_rd_max", "iops_wr_max", "iops_rd_max_length", "iops_wr_max_length",
     "mbps_rd", "mbps_wr", "mbps_rd_max", "mbps_wr_max"]

  function Values(l: Limits): seq<Option<int>> {
    [l.iopsRead, l.iopsWrite, l.iopsReadMax, l.iopsWriteMax, l.iopsReadMaxLength, l.iopsWriteMaxLength,
     l.mbpsRead, l.mbpsWrite, l.mbpsReadMax, l.mbpsWriteMax]
  }

  function Changes(keys: seq<string>, values: seq<Option<int>>): (cs: seq<Change>)
    requires |keys| == |values|
    ensures |cs| == |keys| && forall i :: 0 <= i < |keys| ==> cs[i] == Change(keys[i], Limit(values[i]))
  {
    seq(|keys|, i requires 0 <= i < |keys| => Change(keys[i], Limit(values[i])))
  }

  function Managed(l: Limits): seq<Change> {
    Changes(KEYS, Values(l))
  }

  /** Keys that can be written and told apart, none of them kept as it was. */
  predicate Policy(cs: seq<Change>) {
    CleanChanges(cs) && DistinctKeys(cs) && forall i :: 0 <= i < |cs| ==> cs[i].edit != Keep
  }

  lemma LimitIsClean(key: string, n: Option<int>)
    requires Word(key)
    ensures CleanChange(Change(key, Limit(n))) && Limit(n) != Keep
  {
    WordIsClean(key);
  }

  lemma KeysAreWords(i: nat)
    requires i < |KEYS|
    ensures Word(KEYS[i])
  {
  }

  lemma KeysAreDistinct(i: nat, j: nat)
    requires i < j < |KEYS|
    ensures KEYS[i] != KEYS[j]
  {
  }

  lemma ManagedIsPolicy(l: Limits)
    ensures Policy(Managed(l))
  {
    var cs := Managed(l);
    forall i | 0 <= i < |cs| ensures CleanChange(cs[i]) && cs[i].edit != Keep {
      KeysAreWords(i);
      LimitIsClean(KEYS[i], Values(l)[i]);
    }
    forall i, j | 0 <= i < j < |cs| ensures cs[i].key != cs[j].key {
      KeysAreDistinct(i, j);
    }
  }

  // -------------------------------------------------------------------- Writer

  function KeyOf(segment: string): string {
    Cut(TrimSpace(segment), '=').before
  }

  /** Every option is blank or a pair with a key. */
  predicate Acceptable(segments: seq<string>) {
    segments != [] ==>
      var last := segments[|segments| - 1];
      && Acceptable(segments[..|segments| - 1])
      && (TrimSpace(last) == "" || (Parse(last).Field? && KeyOf(last) != ""))
  }

  /** The options the policy does not manage, trimmed, in their order. */
  function Unmanaged(segments: seq<string>, cs: seq<Change>): seq<string> {
    if segments == [] then []
    else
      var last, before := segments[|segments| - 1], Unmanaged(segments[..|segments| - 1], cs);
      if TrimSpace(last) == "" || Touches(cs, KeyOf(last)) then before else before + [TrimSpace(last)]
  }

  /** The volume's name comes first and is not an option. */
  predicate Named(segment: string) {
    TrimSpace(segment) != "" && '=' !in segment
  }

  /** When the writer accepts the old text. */
  predicate Mergeable(drive: string) {
    && GuestNetwork.SafeText(drive)
    && Named(Split(drive, ',')[0])
    && Acceptable(Split(drive, ',')[1..])
  }

  function Segments(drive: string, cs: seq<Change>): seq<string> {
    var parts := Split(drive, ',');
    [TrimSpace(parts[0])] + Unmanaged(parts[1..], cs) + Rendered(cs)
  }

  /** An option that survives another merge untouched. */
  predicate SettledOption(s: string, cs: seq<Change>) {
    Clean(s) && s != "" && Parse(s).Field? && KeyOf(s) != "" && !Touches(cs, KeyOf(s))
  }

  predicate Settled(us: seq<string>, cs: seq<Change>) {
    forall s :: s in us ==> SettledOption(s, cs)
  }

  lemma TrimmedIsSettled(s: string, cs: seq<Change>)
    requires TrimSpace(s) != "" ==> Parse(s).Field? && KeyOf(s) != ""
    requires ',' !in s
    ensures TrimSpace(s) != "" && !Touches(cs, KeyOf(s)) ==> SettledOption(TrimSpace(s), cs)
  {
  }

  lemma {:induction false} UnmanagedIsSettled(segments: seq<string>, cs: seq<Change>)
    requires Acceptable(segments) && forall s :: s in segments ==> ',' !in s
    ensures Settled(Unmanaged(segments, cs), cs)
  {
    if segments != [] {
      var n := |segments| - 1;
      UnmanagedIsSettled(segments[..n], cs);
      TrimmedIsSettled(segments[n], cs);
    }
  }

  lemma {:induction false} SettledStays(us: seq<string>, cs: seq<Change>)
    requires Settled(us, cs)
    ensures Unmanaged(us, cs) == us
  {
    if us != [] {
      var n := |us| - 1;
      assert us[n] in us;
      SettledStays(us[..n], cs);
      assert us[..n] + [us[n]] == us;
    }
  }

  lemma {:induction false} SettledIsAcceptable(us: seq<string>, cs: seq<Change>)
    requires Settled(us, cs)
    ensures Acceptable(us)
  {
    if us != [] {
      assert us[|us| - 1] in us;
      SettledIsAcceptable(us[..|us| - 1], cs);
    }
  }

  lemma {:induction false} SettledIsClean(us: seq<string>, cs: seq<Change>)
    requires Settled(us, cs)
    ensures forall s :: s in us ==> Clean(s)
  {
  }

  /** No managed key is among the settled options. */
  lemma {:induction false} SettledFields(us: seq<string>, cs: seq<Change>)
    requires Settled(us, cs)
    ensures forall k :: k in Fields(us) ==> !Touches(cs, k)
  {
    if us == [] {
      assert ParseAll(us) == [];
    } else {
      var n := |us| - 1;
      SettledFields(us[..n], cs);
      assert SettledOption(us[n], cs);
      FieldsSnoc(us, n);
      assert us[..n + 1] == us;
    }
  }

  lemma {:induction false} UnmanagedConcat(a: seq<string>, b: seq<string>, cs: seq<Change>)
    ensures Unmanaged(a + b, cs) == Unmanaged(a, cs) + Unmanaged(b, cs)
    ensures Acceptable(a) && Acceptable(b) ==> Acceptable(a + b)
  {
    if b == [] {
      assert a + b == a;
    } else {
      UnmanagedConcat(a, b[..|b| - 1], cs);
      assert (a + b)[..|a + b| - 1] == a + b[..|b| - 1];
    }
  }

  /** Written limits are all managed, so another merge drops and rewrites them. */
  lemma {:induction false} RenderedIsManaged(n: nat, cs: seq<Change>)
    requires n <= |cs| && CleanChanges(cs)
    ensures Unmanaged(Rendered(cs[..n]), cs) == [] && Acceptable(Rendered(cs[..n]))
  {
    if n > 0 {
      RenderedIsManaged(n - 1, cs);
      var c := cs[n - 1];
      assert cs[..n][..n - 1] == cs[..n - 1];
      if c.edit.Put? {
        var before, segment := Rendered(cs[..n - 1]), c.key + "=" + c.edit.value;
        PairKey(c);
        assert Touches(cs, c.key);
        assert (before + [segment])[..|before|] == before;
      } else {
        assert Rendered(cs[..n]) == Rendered(cs[..n - 1]);
      }
    }
  }

  lemma PairKey(c: Change)
    requires CleanChange(c) && c.edit.Put?
    ensures var segment := c.key + "=" + c.edit.value;
            TrimSpace(segment) == segment != "" && Parse(segment).Field? && KeyOf(segment) == c.key != ""
  {
    CleanPair(c);
    ParsePair(c.key, c.edit.value);
  }

  /** The segments of the merged text, put together from clean parts. */
  lemma {:induction false} SegmentsAreClean(id: string, us: seq<string>, cs: seq<Change>)
    requires Clean(id) && Settled(us, cs) && CleanChanges(cs)
    ensures AllClean([id] + us + Rendered(cs))
    ensures Split(Join([id] + us + Rendered(cs), ','), ',') == [id] + us + Rendered(cs)
  {
    SettledIsClean(us, cs);
    RenderedClean(cs);
    FieldsOfJoined([id] + us + Rendered(cs));
  }

  lemma {:induction false} OptionsAgain(us: seq<string>, cs: seq<Change>)
    requires Settled(us, cs) && CleanChanges(cs)
    ensures Acceptable(us + Rendered(cs)) && Unmanaged(us + Rendered(cs), cs) == us
  {
    SettledStays(us, cs);
    SettledIsAcceptable(us, cs);
    RenderedIsManaged(|cs|, cs);
    assert cs[..|cs|] == cs;
    UnmanagedConcat(us, Rendered(cs), cs);
  }

  /** Merging the merged text again gives the same segments. */
  lemma {:induction false} SegmentsAgain(id: string, us: seq<string>, cs: seq<Change>)
    requires Clean(id) && Settled(us, cs) && CleanChanges(cs)
    ensures var text := Join([id] + us + Rendered(cs), ',');
            && Split(text, ',')[0] == id && Acceptable(Split(text, ',')[1..])
            && Segments(text, cs) == [id] + us + Rendered(cs)
  {
    SegmentsAreClean(id, us, cs);
    OptionsAgain(us, cs);
    assert ([id] + us + Rendered(cs))[1..] == us + Rendered(cs);
  }

  /** The fields of the merged segments: the other options, then exactly the policy. */
  lemma {:induction false} SegmentsFields(id: string, us: seq<string>, cs: seq<Change>)
    requires Clean(id) && '=' !in id && Settled(us, cs) && CleanChanges(cs)
    ensures Fields([id] + us + Rendered(cs)) == Fields(us) + Settings(cs)
  {
    FieldsConcat([id] + us, Rendered(cs));
    FieldsConcat([id], us);
    FieldsOne(id);
    RenderedFields(cs);
  }

  // -------------------------------------------------------------------- Reader

  predicate Holds(fields: map<string, string>, c: Change) {
    if c.edit.Put? then c.key in fields && fields[c.key] == c.edit.value else c.key !in fields
  }

  /** The reader's judgement: every limit is exactly as wanted. */
  predicate LimitsMatch(drive: string, cs: seq<Change>) {
    forall i :: 0 <= i < |cs| ==> Holds(Fields(Split(drive, ',')), cs[i])
  }

  lemma {:induction false} SegmentsMatch(id: string, us: seq<string>, cs: seq<Change>)
    requires Clean(id) && '=' !in id && Settled(us, cs) && Policy(cs)
    ensures LimitsMatch(Join([id] + us + Rendered(cs), ','), cs)
  {
    SegmentsAreClean(id, us, cs);
    SegmentsFields(id, us, cs);
    SettledFields(us, cs);
    forall i | 0 <= i < |cs| ensures Holds(Fields(us) + Settings(cs), cs[i]) {
      SettingsLookup(cs, i);
      assert Touches(cs, cs[i].key);
    }
  }

  /** Build the fields, then look every managed key up. */
  method CheckLimits(drive: string, cs: seq<Change>) returns (ok: bool)
    ensures ok <==> LimitsMatch(drive, cs)
  {
    var fields := ReadFields(Split(drive, ','));
    for i := 0 to |cs|
      invariant forall j :: 0 <= j < i ==> Holds(fields, cs[j])
    {
      if !Holds(fields, cs[i]) {
        return false;
      }
    }
    return true;
  }

  /** A limit's key is present exactly when the limit is wanted, and then reads as it. */
  predicate Reads(fields: map<string, string>, key: string, limit: Option<int>) {
    if limit.Some? then key in fields && fields[key] == Itoa(limit.value) else key !in fields
  }

  predicate IopsRead(f: map<string, string>, l: Limits) {
    && Reads(f, "iops_rd", l.iopsRead) && Reads(f, "iops_wr", l.iopsWrite)
    && Reads(f, "iops_rd_max", l.iopsReadMax) && Reads(f, "iops_wr_max", l.iopsWriteMax)
    && Reads(f, "iops_rd_max_length", l.iopsReadMaxLength) && Reads(f, "iops_wr_max_length", l.iopsWriteMaxLength)
  }

  predicate MbpsRead(f: map<string, string>, l: Limits) {
    && Reads(f, "mbps_rd", l.mbpsRead) && Reads(f, "mbps_wr", l.mbpsWrite)
    && Reads(f, "mbps_rd_max", l.mbpsReadMax) && Reads(f, "mbps_wr_max", l.mbpsWriteMax)
  }

  /** The disk text has exactly the ten limits, each under its own key. */
  predicate LimitsAre(drive: string, l: Limits) {
    IopsRead(Fields(Split(drive, ',')), l) && MbpsRead(Fields(Split(drive, ',')), l)
  }

  /** The reader accepts exactly the texts with those limits. */
  lemma MatchMeans(drive: string, l: Limits)
    ensures LimitsMatch(drive, Managed(l)) <==> LimitsAre(drive, l)
  {
    var f, cs := Fields(Split(drive, ',')), Managed(l);
    IopsHold(f, l);
    MbpsHold(f, l);
    if LimitsMatch(drive, cs) {
      assert forall i :: 0 <= i < 10 ==> Holds(f, cs[i]);
    }
    if LimitsAre(drive, l) {
      forall i | 0 <= i < |cs| ensures Holds(f, cs[i]) {
      }
    }
  }

  lemma IopsHold(f: map<string, string>, l: Limits)
    ensures var cs := Managed(l);
            && (Holds(f, cs[0]) <==> Reads(f, "iops_rd", l.iopsRead)) && (Holds(f, cs[1]) <==> Reads(f, "iops_wr", l.iopsWrite))
            && (Holds(f, cs[2]) <==> Reads(f, "iops_rd_max", l.iopsReadMax))
            && (Holds(f, cs[3]) <==> Reads(f, "iops_wr_max", l.iopsWriteMax))
            && (Holds(f, cs[4]) <==> Reads(f, "iops_rd_max_length", l.iopsReadMaxLength))
            && (Holds(f, cs[5]) <==> Reads(f, "iops_wr_max_length", l.iopsWriteMaxLength))
  {
  }

  lemma MbpsHold(f: map<string, string>, l: Limits)
    ensures var cs := Managed(l);
            && (Holds(f, cs[6]) <==> Reads(f, "mbps_rd", l.mbpsRead)) && (Holds(f, cs[7]) <==> Reads(f, "mbps_wr", l.mbpsWrite))
            && (Holds(f, cs[8]) <==> Reads(f, "mbps_rd_max", l.mbpsReadMax))
            && (Holds(f, cs[9]) <==> Reads(f, "mbps_wr_max", l.mbpsWriteMax))
  {
  }

  // -------------------------------------------------- What becomes of other options

  lemma TouchesManaged(l: Limits, key: string)
    ensures Touches(Managed(l), key) <==> key in KEYS
  {
    var cs := Managed(l);
    if key in KEYS {
      var i :| 0 <= i < |KEYS| && KEYS[i] == key;
      assert cs[i].key == key && cs[i].edit != Keep;
    }
  }

  /** An option of another key than the ten. */
  predicate Other(segment: string) {
    TrimSpace(segment) != "" && KeyOf(segment) !in KEYS
  }

  /** The chosen segments, trimmed, in their order. */
  function Chosen(segments: seq<string>, choose: string -> bool): seq<string> {
    if segments == [] then []
    else
      var last, before := segments[|segments| - 1], Chosen(segments[..|segments| - 1], choose);
      if choose(last) then before + [TrimSpace(last)] else before
  }

  function CountChosen(segments: seq<string>, choose: string -> bool): nat {
    if segments == [] then 0
    else CountChosen(segments[..|segments| - 1], choose) + if choose(segments[|segments| - 1]) then 1 else 0
  }

  lemma {:induction false} ChosenSize(segments: seq<string>, choose: string -> bool)
    ensures |Chosen(segments, choose)| == CountChosen(segments, choose)
  {
    if segments != [] {
      ChosenSize(segments[..|segments| - 1], choose);
    }
  }

  lemma {:induction false} ChosenAt(segments: seq<string>, choose: string -> bool, i: nat)
    requires i < |segments| && choose(segments[i])
    ensures var kept, place := Chosen(segments, choose), CountChosen(segments[..i], choose);
            place < |kept| && kept[place] == TrimSpace(segments[i])
  {
    var n := |segments| - 1;
    if i < n {
      ChosenAt(segments[..n], choose, i);
      assert segments[..n][..i] == segments[..i];
    } else {
      ChosenSize(segments[..n], choose);
    }
  }

  /** Exactly the options of other keys survive, */
  lemma {:induction false} OthersSurvive(segments: seq<string>, l: Limits)
    ensures Unmanaged(segments, Managed(l)) == Chosen(segments, Other)
    ensures |Unmanaged(segments, Managed(l))| == CountChosen(segments, Other)
  {
    if segments != [] {
      OthersSurvive(segments[..|segments| - 1], l);
      TouchesManaged(l, KeyOf(segments[|segments| - 1]));
    }
    ChosenSize(segments, Other);
  }

  /** each at its place in the old order, trimmed. */
  lemma OtherSurvives(segments: seq<string>, l: Limits, i: nat)
    requires i < |segments| && Other(segments[i])
    ensures var kept, place := Unmanaged(segments, Managed(l)), CountChosen(segments[..i], Other);
            place < |kept| && kept[place] == TrimSpace(segments[i])
  {
    OthersSurvive(segments, l);
    ChosenAt(segments, Other, i);
  }

  /** Options are acceptable exactly when each is blank or has a key before its first
      equals sign. */
  lemma {:induction false} AcceptableMeans(segments: seq<string>)
    ensures Acceptable(segments) <==>
            forall s :: s in segments ==> TrimSpace(s) == "" || ('=' in TrimSpace(s) && TrimSpace(s)[0] != '=')
  {
    if segments != [] {
      var n := |segments| - 1;
      AcceptableMeans(segments[..n]);
      assert segments == segments[..n] + [segments[n]];
      OptionMeans(segments[n]);
    }
  }

  lemma OptionMeans(s: string)
    ensures (Parse(s).Field? && KeyOf(s) != "") <==> (TrimSpace(s) != "" && '=' in TrimSpace(s) && TrimSpace(s)[0] != '=')
  {
    var t, c := TrimSpace(s), Cut(TrimSpace(s), '=');
    if c.found && c.before != "" {
      assert t[0] == c.before[0];
    }
  }

  // ------------------------------------------------------------------- Merging

  /** The writer's loop over the options behind the volume's name. */
  method KeepUnmanaged(segments: seq<string>, cs: seq<Change>) returns (r: Option<seq<string>>)
    ensures r.Some? <==> Acceptable(segments)
    ensures r.Some? ==> r.value == Unmanaged(segments, cs)
  {
    var out := [];
    for i := 0 to |segments|
      invariant Acceptable(segments[..i]) && out == Unmanaged(segments[..i], cs)
    {
      assert segments[..i + 1][..i] == segments[..i];
      var segment := TrimSpace(segments[i]);
      if segment != "" {
        var c := Cut(segment, '=');
        if !c.found || c.before == "" {
          Unacceptable(segments, i + 1);
          return None;
        }
        if !Touches(cs, c.before) {
          out := out + [segment];
        }
      }
    }
    assert segments[..|segments|] == segments;
    return Some(out);
  }

  lemma {:induction false} Unacceptable(segments: seq<string>, i: nat)
    requires i <= |segments| && !Acceptable(segments[..i])
    ensures !Acceptable(segments)
  {
    if i < |segments| {
      assert segments[..|segments| - 1][..i] == segments[..i];
      Unacceptable(segments[..|segments| - 1], i);
    } else {
      assert segments[..i] == segments;
    }
  }

  lemma PartsOf(drive: string)
    ensures forall s :: s in Split(drive, ',') ==> ',' !in s
    ensures Named(Split(drive, ',')[0]) ==>
              var id := TrimSpace(Split(drive, ',')[0]); Clean(id) && id != "" && '=' !in id
  {
    SplitPieces(drive, ',');
  }

  /** Replace the managed limits: the reader accepts the result, the volume's name and
      every other option keep their text and order up to trimming. */
  method MergeLimits(drive: string, cs: seq<Change>) returns (r: Result<string>)
    requires Policy(cs)
    ensures r.Ok? <==> Mergeable(drive)
    ensures r.Ok? ==> LimitsMatch(r.value, cs)
    ensures r.Ok? ==> r.value == Join(Segments(drive, cs), ',') && r.value != ""
    ensures r.Ok? ==> Segments(r.value, cs) == Segments(drive, cs)
    ensures r.Ok? ==> (Mergeable(r.value) <==> GuestNetwork.SafeText(r.value))
  {
    var parts := Split(drive, ',');
    if !GuestNetwork.SafeText(drive) || TrimSpace(parts[0]) == "" || '=' in parts[0] {
      return Err;
    }
    var kept := KeepUnmanaged(parts[1..], cs);
    if kept == None {
      return Err;
    }
    PartsOf(drive);
    var id := TrimSpace(parts[0]);
    UnmanagedIsSettled(parts[1..], cs);
    SegmentsMatch(id, kept.value, cs);
    SegmentsAgain(id, kept.value, cs);
    var out := Append([id] + kept.value, cs);
    JoinedIsNotEmpty(out);
    r := Ok(Join(out, ','));
  }

  lemma JoinedIsNotEmpty(parts: seq<string>)
    requires parts != [] && parts[0] != ""
    ensures Join(parts, ',') != ""
  {
  }

  /** Merging twice is merging once, within the length bound. */
  method MergeTwice(drive: string, l: Limits) returns (once: Result<string>, twice: Result<string>)
    ensures once.Ok? ==> (twice.Ok? <==> GuestNetwork.SafeText(once.value))
    ensures once.Ok? && twice.Ok? ==> twice == once
    ensures once.Err? ==> twice.Err?
  {
    ManagedIsPolicy(l);
    once := MergeLimits(drive, Managed(l));
    twice := Err;
    if once.Ok? {
      twice := MergeLimits(once.value, Managed(l));
    }
  }

  // ------------------------------------------------------------------- Command

  datatype Request = Unchanged | Write(text: string) | Refused

  /** What the command asks of PVE. */
  method SetDiskLimits(config: map<string, string>, disk: string, l: Limits) returns (r: Request)
    ensures var drive := GuestNetwork.ConfigString(config, disk);
            && (r == Unchanged <==> drive.Some? && LimitsAre(drive.value, l))
            && (r.Refused? <==> drive == None || (!LimitsAre(drive.value, l) && !Mergeable(drive.value)))
            && (r.Write? ==> drive.Some? && LimitsAre(r.text, l) && r.text == Join(Segments(drive.value, Managed(l)), ',') != "")
  {
    var drive := GuestNetwork.ConfigString(config, disk);
    if drive == None {
      return Refused;
    }
    ManagedIsPolicy(l);
    MatchMeans(drive.value, l);
    var matches := CheckLimits(drive.value, Managed(l));
    if matches {
      return Unchanged;
    }
    var updated := MergeLimits(drive.value, Managed(l));
    if updated.Err? {
      return Refused;
    }
    MatchMeans(updated.value, l);
    r := if updated.value == drive.value then Unchanged else Write(updated.value);
  }

  /** Repeating the command writes nothing, as long as the text can be read back. */
  method SetDiskLimitsAgain(config: map<string, string>, disk: string, l: Limits) returns (first: Request, second: Request)
    ensures first.Write? ==> (second == Unchanged <==> GuestNetwork.SafeText(first.text))
    ensures !first.Write? ==> second == first
  {
    first := SetDiskLimits(config, disk, l);
    second := first;
    if first.Write? {
      second := SetDiskLimits(config[disk := first.text], disk, l);
    }
  }
}

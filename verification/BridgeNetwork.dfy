/** The parsed network configuration a bridge is added to, and the check that a
    candidate differs from the baseline by exactly that bridge. */
module NetworkSemantics {
  import opened Common
  import opened Text

  /** JSON, with numbers kept as text. */
  datatype Value =
    | Null | Bool(b: bool) | Number(text: string) | Str(s: string)
    | List(items: seq<Value>) | Object(fields: map<string, Value>)

  /** Drop every `priority` key, which PVE renumbers whenever it writes the file. */
  function Normalize(v: Value): Value {
    match v
    case List(items) => List(seq(|items|, i requires 0 <= i < |items| => Normalize(items[i])))
    case Object(fields) => Object(map k | k in fields && k != "priority" :: Normalize(fields[k]))
    case _ => v
  }

  predicate PriorityFree(v: Value) {
    match v
    case List(items) => forall i :: 0 <= i < |items| ==> PriorityFree(items[i])
    case Object(fields) => "priority" !in fields && forall k :: k in fields ==> PriorityFree(fields[k])
    case _ => true
  }

  /** Normal forms have no `priority` key, and a value without one is its own normal
      form: on such values normalised equality is equality. */
  lemma {:induction false} NormalizeExactly(v: Value)
    ensures PriorityFree(Normalize(v))
    ensures Normalize(v) == v <==> PriorityFree(v)
  {
    match v
    case List(items) =>
      forall i | 0 <= i < |items|
        ensures PriorityFree(Normalize(items[i])) && (Normalize(items[i]) == items[i] <==> PriorityFree(items[i]))
      {
        NormalizeExactly(items[i]);
      }
      var n := Normalize(v).items;
      if PriorityFree(v) {
        assert n == items;
      } else {
        var i :| 0 <= i < |items| && !PriorityFree(items[i]);
        assert n[i] != items[i];
      }
    case Object(fields) =>
      forall k | k in fields
        ensures PriorityFree(Normalize(fields[k])) && (Normalize(fields[k]) == fields[k] <==> PriorityFree(fields[k]))
      {
        NormalizeExactly(fields[k]);
      }
      var n := Normalize(v).fields;
      if PriorityFree(v) {
        assert n == fields;
      } else if "priority" !in fields {
        var k :| k in fields && !PriorityFree(fields[k]);
        assert n[k] != fields[k];
      }
    case _ =>
  }

  /** A deep copy. */
  function Clone(v: Value): Value {
    match v
    case List(items) => List(seq(|items|, i requires 0 <= i < |items| => Clone(items[i])))
    case Object(fields) => Object(map k | k in fields :: Clone(fields[k]))
    case _ => v
  }

  lemma {:induction false} CloneIsEqual(v: Value)
    ensures Clone(v) == v
  {
    match v
    case List(items) =>
      forall i | 0 <= i < |items| ensures Clone(items[i]) == items[i] {
        CloneIsEqual(items[i]);
      }
      assert Clone(v).items == items;
    case Object(fields) =>
      forall k | k in fields ensures Clone(fields[k]) == fields[k] {
        CloneIsEqual(fields[k]);
      }
      assert Clone(v).fields == fields;
    case _ =>
  }

  // ------------------------------------------------------------------ Decoding

  type Root = map<string, Value>

  /** The second halves of the options, if every option is a pair. */
  function OptionValues(items: seq<Value>): Option<seq<Value>> {
    if items == [] then Some([])
    else
      var before, last := OptionValues(items[..|items| - 1]), items[|items| - 1];
      if before == None || !last.List? || |last.items| != 2 then None else Some(before.value + [last.items[1]])
  }

  /** Normalise the parser's output and keep only the options' values. */
  function Decode(raw: Value): Option<Root> {
    var v := Normalize(raw);
    if !v.Object? || "ifaces" !in v.fields || !v.fields["ifaces"].Object? then None
    else if "options" !in v.fields || !v.fields["options"].List? then None
    else
      var options := OptionValues(v.fields["options"].items);
      if options == None then None else Some(v.fields["options" := List(options.value)])
  }

  lemma DecodedShape(raw: Value)
    ensures Decode(raw).Some? ==> HasIfaces(Decode(raw).value)
  {
  }

  predicate HasIfaces(root: Root) {
    "ifaces" in root && root["ifaces"].Object?
  }

  /** An interface counts as present only if it is an object. */
  function Iface(root: Root, name: string): Option<Root> {
    if !HasIfaces(root) || name !in root["ifaces"].fields || !root["ifaces"].fields[name].Object? then None
    else Some(root["ifaces"].fields[name].fields)
  }

  // ------------------------------------------- What comparing decoded forms means

  /** An interface as PVE's parser prints it: an object whose own `priority` is the
      only key of that name inside it. */
  predicate ShapedIface(v: Value) {
    v.Object? && forall k :: k in v.fields && k != "priority" ==> PriorityFree(v.fields[k])
  }

  predicate ShapedOption(v: Value) {
    v.List? && |v.items| == 2 && PriorityFree(v.items[1])
  }

  /** A configuration as PVE's parser prints it. */
  predicate Shaped(v: Value) {
    && v.Object? && "priority" !in v.fields
    && "ifaces" in v.fields && v.fields["ifaces"].Object?
    && "options" in v.fields && v.fields["options"].List?
    && (forall n :: n in v.fields["ifaces"].fields ==> ShapedIface(v.fields["ifaces"].fields[n]))
    && (forall i :: 0 <= i < |v.fields["options"].items| ==> ShapedOption(v.fields["options"].items[i]))
    && (forall k :: k in v.fields && k != "ifaces" && k != "options" ==> PriorityFree(v.fields[k]))
  }

  function Ifaces(v: Value): Root
    requires Shaped(v)
  {
    v.fields["ifaces"].fields
  }

  function Options(v: Value): seq<Value>
    requires Shaped(v)
  {
    v.fields["options"].items
  }

  predicate SameIface(a: Value, b: Value) {
    a.Object? && b.Object? && a.fields - {"priority"} == b.fields - {"priority"}
  }

  /** The same interfaces, apart from the `priority` field of each. */
  predicate SameIfaces(a: Root, b: Root) {
    a.Keys == b.Keys && forall n :: n in a ==> n in b && SameIface(a[n], b[n])
  }

  /** The same options in the same order, apart from the number in front of each. */
  predicate SameOptions(a: seq<Value>, b: seq<Value>) {
    && |a| == |b|
    && forall i :: 0 <= i < |a| ==>
         a[i].List? && b[i].List? && |a[i].items| == |b[i].items| == 2 && a[i].items[1] == b[i].items[1]
  }

  predicate SameOthers(a: Root, b: Root) {
    a.Keys == b.Keys && forall k :: k in a && k != "ifaces" && k != "options" ==> k in b && a[k] == b[k]
  }

  /** Two configurations that differ at most in what PVE renumbers. */
  predicate SameConfiguration(a: Value, b: Value)
    requires Shaped(a) && Shaped(b)
  {
    SameOthers(a.fields, b.fields) && SameIfaces(Ifaces(a), Ifaces(b)) && SameOptions(Options(a), Options(b))
  }

  function StrippedIface(v: Value): Value {
    if v.Object? then Object(v.fields - {"priority"}) else v
  }

  lemma NormalizeIface(v: Value)
    requires ShapedIface(v)
    ensures Normalize(v) == StrippedIface(v)
  {
    forall k | k in v.fields && k != "priority" ensures Normalize(v.fields[k]) == v.fields[k] {
      NormalizeExactly(v.fields[k]);
    }
  }

  function Stripped(ifaces: Root): Root {
    map n | n in ifaces && n != "priority" :: StrippedIface(ifaces[n])
  }

  lemma NormalizeIfaces(ifaces: Root)
    requires forall n :: n in ifaces ==> ShapedIface(ifaces[n])
    ensures Normalize(Object(ifaces)) == Object(Stripped(ifaces))
  {
    forall n | n in ifaces && n != "priority" ensures Normalize(ifaces[n]) == StrippedIface(ifaces[n]) {
      NormalizeIface(ifaces[n]);
    }
  }

  function Second(v: Value): Value {
    if v.List? && |v.items| == 2 then v.items[1] else Null
  }

  function Seconds(options: seq<Value>): seq<Value> {
    seq(|options|, i requires 0 <= i < |options| => Second(options[i]))
  }

  lemma NormalizeOption(v: Value)
    requires ShapedOption(v)
    ensures Normalize(v).List? && |Normalize(v).items| == 2 && Normalize(v).items[1] == v.items[1]
  {
    NormalizeExactly(v.items[1]);
  }

  lemma {:induction false} OptionSeconds(options: seq<Value>)
    requires forall i :: 0 <= i < |options| ==> ShapedOption(options[i])
    ensures OptionValues(Normalize(List(options)).items) == Some(Seconds(options))
  {
    if options != [] {
      var n := |options| - 1;
      OptionSeconds(options[..n]);
      NormalizeOption(options[n]);
      assert Normalize(List(options)).items[..n] == Normalize(List(options[..n])).items;
      assert Seconds(options) == Seconds(options[..n]) + [Second(options[n])];
    }
  }

  /** The decoded form, said without the normaliser. */
  function Form(v: Value): Root
    requires Shaped(v)
  {
    v.fields["ifaces" := Object(Stripped(Ifaces(v)))]["options" := List(Seconds(Options(v)))]
  }

  lemma DecodeIsForm(v: Value)
    requires Shaped(v)
    ensures Decode(v) == Some(Form(v))
  {
    NormalizeIfaces(Ifaces(v));
    OptionSeconds(Options(v));
    assert v.fields["ifaces"] == Object(Ifaces(v)) && v.fields["options"] == List(Options(v));
    forall k | k in v.fields && k != "ifaces" && k != "options" ensures Normalize(v.fields[k]) == v.fields[k] {
      NormalizeExactly(v.fields[k]);
    }
    var fields := Normalize(v).fields;
    assert fields["options" := List(Seconds(Options(v)))] == Form(v);
  }

  /** The configuration without an interface that is itself called `priority`. */
  function Hidden(v: Value): Value
    requires Shaped(v)
  {
    Object(v.fields["ifaces" := Object(Ifaces(v) - {"priority"})])
  }

  lemma HiddenShaped(v: Value)
    requires Shaped(v)
    ensures Shaped(Hidden(v)) && Ifaces(Hidden(v)) == Ifaces(v) - {"priority"} && Options(Hidden(v)) == Options(v)
    ensures "priority" !in Ifaces(v) ==> Hidden(v) == v
  {
    if "priority" !in Ifaces(v) {
      assert Ifaces(v) - {"priority"} == Ifaces(v);
      assert v.fields["ifaces" := v.fields["ifaces"]] == v.fields;
    }
  }

  lemma StrippedSame(a: Root, b: Root)
    requires (forall n :: n in a ==> ShapedIface(a[n])) && (forall n :: n in b ==> ShapedIface(b[n]))
    ensures Stripped(a) == Stripped(b) <==> SameIfaces(a - {"priority"}, b - {"priority"})
  {
    var x, y := a - {"priority"}, b - {"priority"};
    assert Stripped(a).Keys == x.Keys && Stripped(b).Keys == y.Keys;
    if Stripped(a) == Stripped(b) {
      forall n | n in x ensures n in y && SameIface(x[n], y[n]) {
        assert n in Stripped(a).Keys;
        assert Stripped(a)[n] == StrippedIface(a[n]) && Stripped(b)[n] == StrippedIface(b[n]);
      }
      assert x.Keys == y.Keys;
    }
    if SameIfaces(x, y) {
      forall n | n in Stripped(a) ensures n in Stripped(b) && Stripped(a)[n] == Stripped(b)[n] {
        assert n in x.Keys && n in y.Keys && SameIface(x[n], y[n]);
      }
    }
  }

  lemma SecondsSame(a: seq<Value>, b: seq<Value>)
    requires (forall i :: 0 <= i < |a| ==> ShapedOption(a[i])) && (forall i :: 0 <= i < |b| ==> ShapedOption(b[i]))
    ensures Seconds(a) == Seconds(b) <==> SameOptions(a, b)
  {
    if Seconds(a) == Seconds(b) {
      forall i | 0 <= i < |a| ensures a[i].items[1] == b[i].items[1] {
        assert Seconds(a)[i] == Seconds(b)[i];
      }
    }
  }

  lemma FormsSame(a: Value, b: Value)
    requires Shaped(a) && Shaped(b)
    ensures Form(a) == Form(b) <==>
            SameOthers(a.fields, b.fields) && Stripped(Ifaces(a)) == Stripped(Ifaces(b)) && Seconds(Options(a)) == Seconds(Options(b))
  {
    var x, y := Form(a), Form(b);
    assert x.Keys == a.fields.Keys && y.Keys == b.fields.Keys;
    assert x["ifaces"] == Object(Stripped(Ifaces(a))) && x["options"] == List(Seconds(Options(a)));
    assert y["ifaces"] == Object(Stripped(Ifaces(b))) && y["options"] == List(Seconds(Options(b)));
    if x == y {
      forall k | k in a.fields && k != "ifaces" && k != "options" ensures k in b.fields && a.fields[k] == b.fields[k] {
        assert k in x.Keys && x[k] == a.fields[k] && y[k] == b.fields[k];
      }
    }
  }

  lemma HiddenOthers(a: Value, b: Value)
    requires Shaped(a) && Shaped(b)
    ensures SameOthers(Hidden(a).fields, Hidden(b).fields) <==> SameOthers(a.fields, b.fields)
  {
    var x, y := Hidden(a).fields, Hidden(b).fields;
    assert x.Keys == a.fields.Keys && y.Keys == b.fields.Keys;
    assert forall k :: k in x && k != "ifaces" ==> x[k] == a.fields[k];
    assert forall k :: k in y && k != "ifaces" ==> y[k] == b.fields[k];
  }

  /** Two configurations have the same decoded form exactly when they are the same
      apart from what PVE renumbers and from an interface called `priority`. */
  lemma DecodeExactly(a: Value, b: Value)
    requires Shaped(a) && Shaped(b)
    ensures Decode(a).Some? && Decode(b).Some? && Shaped(Hidden(a)) && Shaped(Hidden(b))
    ensures Decode(a) == Decode(b) <==> SameConfiguration(Hidden(a), Hidden(b))
  {
    DecodeIsForm(a);
    DecodeIsForm(b);
    HiddenShaped(a);
    HiddenShaped(b);
    HiddenOthers(a, b);
    FormsSame(a, b);
    StrippedSame(Ifaces(a), Ifaces(b));
    SecondsSame(Options(a), Options(b));
  }

  /** So if neither configuration has an interface of that name, the same decoded form
      means the same configuration, and conversely. */
  lemma DecodeIsFaithful(a: Value, b: Value)
    requires Shaped(a) && Shaped(b) && "priority" !in Ifaces(a) && "priority" !in Ifaces(b)
    ensures Decode(a) == Decode(b) <==> SameConfiguration(a, b)
  {
    DecodeExactly(a, b);
    HiddenShaped(a);
    HiddenShaped(b);
  }

  function WithIface(v: Value, name: string, iface: Value): Value
    requires Shaped(v)
  {
    Object(v.fields["ifaces" := Object(Ifaces(v)[name := iface])])
  }

  /** Adding an interface of that name changes the configuration and not its decoded form. */
  lemma HiddenIface(v: Value, iface: Value)
    requires Shaped(v) && "priority" !in Ifaces(v) && ShapedIface(iface)
    ensures Shaped(WithIface(v, "priority", iface)) && !SameConfiguration(v, WithIface(v, "priority", iface))
    ensures Decode(WithIface(v, "priority", iface)) == Decode(v)
  {
    var w := WithIface(v, "priority", iface);
    WithIfaceShaped(v, "priority", iface);
    assert "priority" in Ifaces(w).Keys && "priority" !in Ifaces(v).Keys;
    DecodeIsForm(v);
    DecodeIsForm(w);
    StrippedHidden(Ifaces(v), iface);
    FormOf(v, w);
  }

  lemma WithIfaceShaped(v: Value, name: string, iface: Value)
    requires Shaped(v) && ShapedIface(iface)
    ensures var w := WithIface(v, name, iface);
            Shaped(w) && Ifaces(w) == Ifaces(v)[name := iface] && Options(w) == Options(v)
  {
  }

  lemma StrippedHidden(ifaces: Root, iface: Value)
    ensures Stripped(ifaces["priority" := iface]) == Stripped(ifaces)
  {
  }

  lemma FormOf(v: Value, w: Value)
    requires Shaped(v) && Shaped(w) && w.fields == v.fields["ifaces" := w.fields["ifaces"]]
    requires Stripped(Ifaces(w)) == Stripped(Ifaces(v))
    ensures Form(w) == Form(v)
  {
  }

  // ----------------------------------------------------------- The owned bridge

  const ALLOWED := {"autostart", "bridge_fd", "bridge_ports", "bridge_stp", "comments", "families", "method", "method6", "type"}

  const OWNER := "PPFlight private template bridge"

  /** A scalar's text; lists and objects print with a bracket and never match. */
  function Scalar(v: Value): string {
    match v
    case Str(s) => s
    case Number(t) => t
    case Bool(b) => if b then "1" else "0"
    case Null => ""
    case List(_) => "[]"
    case Object(_) => "map[]"
  }

  function At(iface: Root, key: string): Value {
    if key in iface then iface[key] else Null
  }

  predicate Truthy(v: Value) {
    Lower(TrimSpace(Scalar(v))) in ["1", "true", "yes", "on"]
  }

  /** Every field is that of an isolated bridge: no port, no address, no gateway. */
  predicate Isolated(iface: Root) {
    && Truthy(At(iface, "autostart")) && Scalar(At(iface, "bridge_fd")) == "0" && Scalar(At(iface, "bridge_ports")) == ""
    && Lower(Scalar(At(iface, "bridge_stp"))) == "off" && TrimSpace(Scalar(At(iface, "comments"))) == OWNER
    && Scalar(At(iface, "method")) == "manual" && Scalar(At(iface, "method6")) == "manual"
    && Scalar(At(iface, "type")) == "bridge"
    && At(iface, "families").List? && |At(iface, "families").items| == 1 && Scalar(At(iface, "families").items[0]) == "inet"
  }

  /** Field by literal field. */
  lemma IsolatedMeans(iface: Root)
    ensures Isolated(iface) <==>
            && Lower(TrimSpace(Scalar(At(iface, "autostart")))) in ["1", "true", "yes", "on"]
            && Scalar(At(iface, "bridge_ports")) == "" && Scalar(At(iface, "bridge_fd")) == "0"
            && Lower(Scalar(At(iface, "bridge_stp"))) == "off" && Scalar(At(iface, "type")) == "bridge"
            && Scalar(At(iface, "method")) == "manual" && Scalar(At(iface, "method6")) == "manual"
            && TrimSpace(Scalar(At(iface, "comments"))) == "PPFlight private template bridge"
            && At(iface, "families").List? && |At(iface, "families").items| == 1
            && Scalar(At(iface, "families").items[0]) == "inet"
    ensures ALLOWED == {"type", "method", "method6", "families", "comments", "autostart", "bridge_stp", "bridge_fd", "bridge_ports"}
  {
  }

  /** Exactly the nine fields of an isolated bridge. */
  predicate Owned(iface: Root, allowed: set<string>) {
    iface.Keys == allowed && Isolated(iface)
  }

  /** As many fields as allowed, and each of them allowed. */
  method ValidateOwned(iface: Root, allowed: set<string>) returns (ok: bool)
    ensures ok <==> Owned(iface, allowed)
  {
    if |iface| != |allowed| {
      assert |iface| == |iface.Keys|;
      return false;
    }
    var todo := iface.Keys;
    while todo != {}
      invariant todo <= iface.Keys && iface.Keys - todo <= allowed
      decreases |todo|
    {
      var k :| k in todo;
      if k !in allowed {
        assert k in iface.Keys;
        return false;
      }
      todo := todo - {k};
    }
    assert |iface| == |iface.Keys|;
    SubsetOfSameSize(iface.Keys, allowed);
    return Isolated(iface);
  }

  /** The baseline with one interface added and nothing else changed. */
  function Added(baseline: Root, name: string, iface: Root): Root
    requires HasIfaces(baseline)
  {
    baseline["ifaces" := Object(baseline["ifaces"].fields[name := Object(iface)])]
  }

  /** The candidate is the baseline plus one owned bridge that was not there. */
  ghost predicate OnlyAddition(baseline: Root, candidate: Root, name: string) {
    && HasIfaces(baseline) && name !in baseline["ifaces"].fields
    && exists iface :: Owned(iface, ALLOWED) && candidate == Added(baseline, name, iface)
  }

  /** Take the bridge out of a copy of the candidate and compare with the baseline. */
  method VerifyOnlyAddition(baseline: Root, candidate: Root, name: string) returns (ok: bool)
    requires HasIfaces(baseline) && HasIfaces(candidate)
    ensures ok <==> OnlyAddition(baseline, candidate, name)
  {
    var present, iface := Iface(baseline, name), Iface(candidate, name);
    var owned := false;
    if iface.Some? {
      owned := ValidateOwned(iface.value, ALLOWED);
    }
    if present.Some? || !owned {
      NotAddition(baseline, candidate, name);
      return false;
    }
    CloneIsEqual(Object(candidate));
    var clone := Clone(Object(candidate)).fields;
    var without := clone["ifaces" := Object(clone["ifaces"].fields - {name})];
    AdditionUndone(baseline, candidate, name, iface.value);
    ok := without == baseline;
  }

  lemma NotAddition(baseline: Root, candidate: Root, name: string)
    requires HasIfaces(baseline)
    ensures OnlyAddition(baseline, candidate, name) ==>
              Iface(baseline, name) == None && Iface(candidate, name).Some? && Owned(Iface(candidate, name).value, ALLOWED)
  {
  }

  /** Removing the candidate's bridge gives the baseline exactly when the candidate is
      the baseline with that bridge added. */
  lemma AdditionUndone(baseline: Root, candidate: Root, name: string, iface: Root)
    requires HasIfaces(baseline) && Iface(candidate, name) == Some(iface)
    ensures candidate["ifaces" := Object(candidate["ifaces"].fields - {name})] == baseline <==>
            name !in baseline["ifaces"].fields && candidate == Added(baseline, name, iface)
  {
    var without := candidate["ifaces" := Object(candidate["ifaces"].fields - {name})];
    if without == baseline {
      assert baseline["ifaces"].fields == candidate["ifaces"].fields - {name};
      assert baseline["ifaces"].fields[name := Object(iface)] == candidate["ifaces"].fields;
      assert candidate == Added(baseline, name, iface);
    }
    if name !in baseline["ifaces"].fields && candidate == Added(baseline, name, iface) {
      assert candidate["ifaces"].fields - {name} == baseline["ifaces"].fields;
      assert without == baseline;
    }
  }
}

/** What can happen to PVE's two network files around a reload task. */
module ReloadTask {
  import opened Common

  /** A reload task renames the pending file over the active one some time after it
      was submitted, and stops some time later. It does not take the lock. */
  datatype Task = NoTask | Waiting | Renamed | Stopped

  /** `applied` lists the files the task has renamed. */
  datatype World = World(active: string, pending: Option<string>, locked: bool, task: Task, applied: seq<string>)

  /** Other writers edit either file, under the lock; the task renames, or stops. */
  datatype Event = Edit(active: string, pending: Option<string>) | Rename | Stop

  predicate Enabled(w: World, e: Event) {
    match e
    case Edit(_, _) => !w.locked
    case Rename => w.task == Waiting && w.pending.Some?
    case Stop => w.task == Waiting || w.task == Renamed
  }

  function Next(w: World, e: Event): World
    requires Enabled(w, e)
  {
    match e
    case Edit(a, q) => w.(active := a, pending := q)
    case Rename => w.(active := w.pending.value, pending := None, task := Renamed, applied := w.applied + [w.pending.value])
    case Stop => w.(task := Stopped)
  }

  /** The events can happen one after the other. */
  predicate Happens(w: World, es: seq<Event>)
    decreases |es|, 0
  {
    es == [] || (Happens(w, es[..|es| - 1]) && Enabled(After(w, es[..|es| - 1]), es[|es| - 1]))
  }

  function After(w: World, es: seq<Event>): World
    requires Happens(w, es)
    decreases |es|, 1
  {
    if es == [] then w else Next(After(w, es[..|es| - 1]), es[|es| - 1])
  }

  ghost predicate Evolves(w: World, next: World) {
    exists es :: Happens(w, es) && After(w, es) == next
  }

  /** The task has renamed no other file than `v`. */
  predicate Only(w: World, v: string) {
    forall f :: f in w.applied ==> f == v
  }

  /** The task can no longer rename anything but `v`: it has renamed, it has stopped, or
      the lock keeps others from the pending file. */
  predicate Guarded(w: World, v: string) {
    Only(w, v) && (w.task == Waiting ==> w.locked && w.pending == Some(v))
  }

  lemma {:induction false} GuardedStays(w: World, es: seq<Event>, v: string)
    requires Guarded(w, v) && Happens(w, es)
    ensures Guarded(After(w, es), v) && After(w, es).locked == w.locked
  {
    if es != [] {
      GuardedStays(w, es[..|es| - 1], v);
    }
  }

  /** Once the lock is released, whatever anyone does the task renames only the verified
      file, if and only if no rename is outstanding at that moment. */
  lemma ReleasedExactly(w: World, v: string)
    requires !w.locked && Only(w, v)
    ensures (forall es :: Happens(w, es) ==> Only(After(w, es), v)) <==> w.task != Waiting
  {
    if w.task != Waiting {
      forall es | Happens(w, es) ensures Only(After(w, es), v) {
        GuardedStays(w, es, v);
      }
    } else {
      OtherEditApplied(w, v + "x");
      assert (v + "x") != v;
      var es := [Edit(w.active, Some(v + "x")), Rename];
      assert (v + "x") in After(w, es).applied;
    }
  }

  /** The run that shows it: another writer edits the pending file, the task renames it. */
  lemma OtherEditApplied(w: World, edit: string)
    requires !w.locked && w.task == Waiting
    ensures var es := [Edit(w.active, Some(edit)), Rename];
            Happens(w, es) && After(w, es).active == edit && After(w, es).applied == w.applied + [edit]
  {
    var es := [Edit(w.active, Some(edit)), Rename];
    assert es[..1] == [Edit(w.active, Some(edit))] && es[..1][..0] == [];
    assert Happens(w, es[..1][..0]) && After(w, es[..1][..0]) == w;
    assert After(w, es[..1]) == w.(pending := Some(edit));
  }

  /** With the lock held and no task running, nothing changes. */
  lemma {:induction false} LockedIsStill(w: World, es: seq<Event>)
    requires w.locked && (w.task == NoTask || w.task == Stopped) && Happens(w, es)
    ensures After(w, es) == w
  {
    if es != [] {
      LockedIsStill(w, es[..|es| - 1]);
    }
  }

  lemma {:induction false} NoTaskStays(w: World, es: seq<Event>)
    requires w.task == NoTask && Happens(w, es)
    ensures var n := After(w, es); n.task == NoTask && n.applied == w.applied && n.locked == w.locked
  {
    if es != [] {
      NoTaskStays(w, es[..|es| - 1]);
    }
  }

  /** A reload of `v` over `base` under the lock: not renamed yet, or renamed. */
  predicate Reloading(w: World, base: string, v: string) {
    && w.locked && w.task != NoTask
    && (w.task == Waiting ==> w.applied == [])
    && (w.task == Renamed ==> w.applied == [v])
    && (if w.applied == [] then w.active == base && w.pending == Some(v)
        else w.applied == [v] && w.active == v && w.pending == None)
  }

  lemma {:induction false} ReloadingStays(w: World, es: seq<Event>, base: string, v: string)
    requires Reloading(w, base, v) && Happens(w, es)
    ensures Reloading(After(w, es), base, v)
    ensures w.task == Stopped ==> After(w, es) == w
  {
    if es != [] {
      ReloadingStays(w, es[..|es| - 1], base, v);
    }
  }
}

/** Creating the bridge against other writers that respect the same lock. */
module BridgeCreation {
  import opened Common
  import opened NetworkSemantics
  import opened ReloadTask

  /** One reload request: the files at the moment it was issued. */
  datatype Reload = Reload(active: string, pending: Option<string>)

  datatype Snapshot = Snapshot(file: string, root: Root)

  datatype Submission = Accepted | Untraceable | Synchronous | Errored

  datatype Poll = Running | Ended(ok: bool) | Unreadable

  /** `Refused`: no reload was issued. `Failed`: the task stopped, without the wanted
      result. `Unknown`: the task may still be running. */
  datatype Outcome = Created | Refused | Failed | Unknown

  /** PVE's two network files and its lock. `parse` is PVE's own parser. */
  class Network {
    const parse: string -> Option<Value>
    const name: string
    var active: string
    var pending: Option<string>
    /** This transaction holds the lock. */
    var locked: bool
    /** The reload task of this transaction. */
    var task: Task
    /** The files that task has renamed. */
    ghost var applied: seq<string>
    /** Every reload this transaction has issued. */
    ghost var issued: seq<Reload>
    /** The active file when the baseline was captured. */
    ghost var baseline: string

    constructor (p: string -> Option<Value>, n: string, a: string, q: Option<string>)
      ensures parse == p && name == n && active == a && pending == q && Fresh()
    {
      parse, name, active, pending, locked, task := p, n, a, q, false, NoTask;
      applied, issued, baseline := [], [], a;
    }

    ghost predicate Fresh()
      reads this
    {
      !locked && task == NoTask && applied == [] && issued == []
    }

    ghost function State(): World
      reads this
    {
      World(active, pending, locked, task, applied)
    }

    ghost function Meaning(file: string): Option<Root>
    {
      var v := parse(file);
      if v == None then None else Decode(v.value)
    }

    /** `file` means what `base` means plus the owned bridge, and nothing else. */
    ghost predicate Adds(base: string, file: string)
    {
      Meaning(base).Some? && Meaning(file).Some? && OnlyAddition(Meaning(base).value, Meaning(file).value, name)
    }

    /** A reload was issued at most once, only over the baseline and only for the owned
        bridge, and so far only that file was renamed by it. */
    ghost predicate Safe()
      reads this
    {
      if issued == [] then task == NoTask && applied == []
      else
        && |issued| == 1 && issued[0].active == baseline
        && issued[0].pending.Some? && Adds(baseline, issued[0].pending.value)
        && Only(State(), issued[0].pending.value)
    }

    /** Everything is in place for a fault-free run that posts `posted`. */
    ghost predicate Ready(posted: string)
      reads this
    {
      Fresh() && pending == None && Adds(active, posted)
    }

    // ------------------------------------------------------------ The environment

    method Step(e: Event)
      requires Enabled(State(), e)
      modifies this`active, this`pending, this`task, this`applied
      ensures State() == Next(old(State()), e)
    {
      match e {
        case Edit(a, q) =>
          active, pending := a, q;
        case Rename =>
          applied := applied + [pending.value];
          active, pending, task := pending.value, None, Renamed;
        case Stop =>
          task := Stopped;
      }
    }

    /** Other writers and the task act, in any order and any number of times. */
    method Interfere(clean: bool)
      modifies this`active, this`pending, this`task, this`applied
      ensures Evolves(old(State()), State())
      ensures clean ==> State() == old(State())
    {
      ghost var es: seq<Event> := [];
      assert Happens(State(), es) && After(State(), es) == State();
      var n: int := *;
      if clean || n < 0 {
        return;
      }
      for i := 0 to n
        invariant Happens(old(State()), es) && After(old(State()), es) == State()
      {
        var e: Event := *;
        var enabled := match e
          case Edit(_, _) => !locked
          case Rename => task == Waiting && pending.Some?
          case Stop => task == Waiting || task == Renamed;
        if enabled {
          Step(e);
          assert (es + [e])[..|es|] == es;
          es := es + [e];
        }
      }
    }

    method Ask(clean: bool) returns (ok: bool)
      ensures clean ==> ok
    {
      ok := *;
      ok := ok || clean;
    }

    /** Under the lock and without a running task, others can do nothing. */
    method Pause(clean: bool)
      requires locked && (task == NoTask || task == Stopped)
      modifies this`active, this`pending, this`task, this`applied
      ensures State() == old(State())
    {
      Interfere(clean);
      ghost var es :| Happens(old(State()), es) && After(old(State()), es) == State();
      LockedIsStill(old(State()), es);
    }

    method Acquire(clean: bool) returns (ok: bool)
      requires !locked && task == NoTask
      modifies this`active, this`pending, this`task, this`applied, this`locked
      ensures locked == ok && task == NoTask && applied == old(applied)
      ensures clean ==> ok && active == old(active) && pending == old(pending)
    {
      Interfere(clean);
      ghost var es :| Happens(old(State()), es) && After(old(State()), es) == State();
      NoTaskStays(old(State()), es);
      ok := Ask(clean);
      locked := ok;
    }

    // ------------------------------------------------------------------- Checking

    /** Read, parse and read again; refused if the file changed meanwhile. */
    method Capture(file: string, clean: bool) returns (s: Option<Snapshot>)
      requires locked && (task == NoTask || task == Stopped)
      modifies this`active, this`pending, this`task, this`applied
      ensures State() == old(State())
      ensures s.Some? ==> s.value.file == file && Meaning(file) == Some(s.value.root) && HasIfaces(s.value.root)
      ensures clean && Meaning(file).Some? ==> s.Some?
    {
      Pause(clean);
      var readable := Ask(clean);
      var v := parse(file);
      if !readable || v == None {
        return None;
      }
      var root := Decode(v.value);
      DecodedShape(v.value);
      return if root == None then None else Some(Snapshot(file, root.value));
    }

    /** Both files are exactly as they must be for a reload. */
    method Verify(base: Snapshot, clean: bool) returns (ok: bool)
      requires locked && task == NoTask && Meaning(base.file) == Some(base.root) && HasIfaces(base.root)
      modifies this`active, this`pending, this`task, this`applied
      ensures State() == old(State())
      ensures ok ==> active == base.file && pending.Some? && Adds(base.file, pending.value)
      ensures clean && active == base.file && pending.Some? && Adds(base.file, pending.value) ==> ok
    {
      var current := Capture(active, clean);
      if current == None || current.value != base {
        return false;
      }
      if pending == None {
        return false;
      }
      var staged := Capture(pending.value, clean);
      if staged == None {
        return false;
      }
      ok := VerifyOnlyAddition(base.root, staged.value.root, name);
      var kernel := Ask(clean);
      ok := ok && kernel;
    }

    /** Under the lock: nothing pending, a stable baseline, and no such interface. */
    method TakeBaseline(clean: bool) returns (base: Option<Snapshot>)
      requires Fresh()
      modifies this`active, this`pending, this`task, this`applied, this`locked, this`baseline
      ensures Fresh()
      ensures base.Some? ==> Meaning(base.value.file) == Some(base.value.root) && HasIfaces(base.value.root)
      ensures base.Some? ==> baseline == base.value.file
      ensures clean ==> active == old(active) && pending == old(pending)
      ensures clean && pending == None && Meaning(active).Some? && Iface(Meaning(active).value, name) == None ==>
                base.Some? && base.value.file == active
      ensures base.Some? && clean ==> old(pending) == None && base.value.file == active && Iface(base.value.root, name) == None
    {
      var held := Acquire(clean);
      if !held {
        return None;
      }
      base := None;
      if pending == None {
        base := Capture(active, clean);
        if base.Some? {
          baseline := base.value.file;
          var free := Ask(clean);
          if Iface(base.value.root, name).Some? || !free {
            base := None;
          }
        }
      }
      locked := false;
    }

    // -------------------------------------------------------------- The reload task

    /** Submit the reload. PVE may start the task although it reports an error, and may
        run it to its end before it answers. */
    method Submit(clean: bool) returns (f: Fate<Submission>)
      requires locked && task == NoTask && applied == [] && issued == []
      requires active == baseline && pending.Some? && Adds(baseline, pending.value)
      modifies this`active, this`pending, this`task, this`applied, this`issued
      ensures issued == [Reload(old(active), old(pending))]
      ensures Reloading(State(), baseline, old(pending).value) || State() == old(State())
      ensures f.Alive? && f.value != Errored ==> task != NoTask
      ensures f == Alive(Synchronous) ==> task == Stopped
      ensures clean ==> f == Alive(Accepted) && State() == old(State()).(task := Waiting)
    {
      issued := [Reload(active, pending)];
      var reply: Submission, died: bool, started: bool := *, *, *;
      if clean {
        task := Waiting;
        return Alive(Accepted);
      }
      if reply != Errored || started {
        task := Waiting;
        RunTask();
        if reply == Synchronous && task != Stopped {
          Step(Stop);
        }
      }
      f := if died then Died else Alive(reply);
    }

    /** Time passes for a submitted task while the lock is held. */
    method RunTask()
      requires pending.Some? && Reloading(State(), active, pending.value)
      modifies this`active, this`pending, this`task, this`applied
      ensures Reloading(State(), old(active), old(pending).value)
    {
      Interfere(false);
      ghost var es :| Happens(old(State()), es) && After(old(State()), es) == State();
      ReloadingStays(old(State()), es, old(active), old(pending).value);
    }

    /** One look at the task. Its end is reported only once it has stopped. In a `clean`
        run the look fails if it `gives` up, and otherwise shows the finished task. */
    method Look(clean: bool, gives: bool, ghost v: string) returns (p: Poll)
      requires Reloading(State(), baseline, v)
      modifies this`active, this`pending, this`task, this`applied
      ensures Reloading(State(), baseline, v)
      ensures p.Ended? ==> task == Stopped
      ensures clean && gives ==> p == Unreadable && State() == old(State())
      ensures clean && !gives && old(task) == Waiting ==> p == Ended(true) && applied == [v]
    {
      if clean && gives {
        return Unreadable;
      }
      if clean {
        if task == Waiting {
          Step(Rename);
        }
        if task != Stopped {
          Step(Stop);
        }
        return Ended(true);
      }
      Interfere(false);
      ghost var es :| Happens(old(State()), es) && After(old(State()), es) == State();
      ReloadingStays(old(State()), es, baseline, v);
      p := *;
      if p.Ended? && task != Stopped {
        p := Running;
      }
    }

    /** Wait for the task with the lock held: `None` if a look fails or time runs out. */
    method Await(polls: nat, clean: bool, gives: bool, ghost v: string) returns (r: Option<bool>)
      requires Reloading(State(), baseline, v)
      modifies this`active, this`pending, this`task, this`applied
      ensures Reloading(State(), baseline, v)
      ensures r.Some? ==> task == Stopped
      ensures clean && gives ==> r == None && State() == old(State())
      ensures clean && !gives && old(task) == Waiting ==> r == Some(true) && applied == [v]
    {
      var p := Look(clean, gives, v);
      for i := 0 to polls
        invariant Reloading(State(), baseline, v)
        invariant p.Ended? ==> task == Stopped
        invariant clean && gives ==> p == Unreadable && State() == old(State())
        invariant clean && !gives && old(task) == Waiting ==> p == Ended(true) && applied == [v]
      {
        if p != Running {
          break;
        }
        p := Look(clean, gives, v);
      }
      return if p.Ended? then Some(p.ok) else None;
    }

    // -------------------------------------------------------------- The transaction

    /** Reload, wait for the task with the lock held, and read the result back. */
    method Apply(base: Snapshot, polls: nat, clean: bool, gives: bool) returns (f: Fate<Outcome>)
      requires locked && task == NoTask && applied == [] && issued == [] && active == baseline == base.file
      requires pending.Some? && Adds(baseline, pending.value)
      requires Meaning(base.file) == Some(base.root) && HasIfaces(base.root)
      modifies this`active, this`pending, this`task, this`applied, this`issued, this`locked
      ensures Safe() && !locked && issued == [Reload(baseline, old(pending))]
      ensures f == Alive(Created) ==> task == Stopped && pending == None && active == old(pending).value
      ensures f == Alive(Failed) ==> task == Stopped
      ensures f != Alive(Refused)
      ensures clean && gives ==>
                f == Alive(Unknown) && task == Waiting && active == baseline && pending == old(pending) && applied == []
      ensures clean && !gives ==> f == Alive(Created)
    {
      ghost var v := pending.value;
      var submitted := Submit(clean);
      if submitted.Died? || submitted.value == Errored || submitted.value == Untraceable {
        locked := false;
        return if submitted.Died? then Died else Alive(Unknown);
      }
      var ended := Some(true);
      if submitted.value == Accepted {
        ended := Await(polls, clean, gives, v);
      }
      if ended == None {
        locked := false;
        return Alive(Unknown);
      }
      var added := false;
      if ended.value && pending == None {
        added := ReadBack(base, clean);
      }
      locked := false;
      return Alive(if added then Created else Failed);
    }

    method ReadBack(base: Snapshot, clean: bool) returns (ok: bool)
      requires locked && task == Stopped && Meaning(base.file) == Some(base.root) && HasIfaces(base.root)
      modifies this`active, this`pending, this`task, this`applied
      ensures State() == old(State())
      ensures ok ==> Adds(base.file, active)
      ensures clean && Adds(base.file, active) ==> ok
    {
      var after := Capture(active, clean);
      if after == None {
        return false;
      }
      ok := VerifyOnlyAddition(base.root, after.value.root, name);
      var inspected := Ask(clean);
      ok := ok && inspected;
    }

    /** The whole transaction; `posted` is what a fault-free POST leaves pending. The
        lock is free when it ends, whether it returned, gave up waiting or died. */
    method Create(posted: string, polls: nat, clean: bool, gives: bool) returns (f: Fate<Outcome>)
      requires Fresh()
      modifies this
      ensures Safe() && !locked
      ensures f == Alive(Refused) <==> f.Alive? && issued == []
      ensures f == Alive(Created) ==> pending == None && Adds(baseline, active) && active == issued[0].pending.value
      ensures f == Alive(Created) || f == Alive(Failed) ==> task == Stopped
      ensures clean && old(Ready(posted)) && gives ==>
                && f == Alive(Unknown) && task == Waiting && active == old(active) && pending == Some(posted)
                && applied == [] && issued == [Reload(old(active), Some(posted))]
      ensures clean && old(Ready(posted)) && !gives ==> f == Alive(Created) && baseline == old(active) && active == posted
      // With nobody else acting, an edit already pending or an interface of that name is
      // a reason to refuse, and neither file is touched.
      ensures clean && (old(pending).Some? || (Meaning(old(active)).Some? && Iface(Meaning(old(active)).value, name).Some?)) ==>
                f == Alive(Refused) && active == old(active) && pending == old(pending)
    {
      var base := TakeBaseline(clean);
      if base == None {
        return Alive(Refused);
      }
      var held := Post(posted, clean);
      if held != Alive(true) {
        return if held.Died? then Died else Alive(Refused);
      }
      var verified := Verify(base.value, clean);
      var staged := Ask(clean);
      if verified && staged {
        verified := Verify(base.value, clean);
      }
      if !verified || !staged {
        locked := false;
        return Alive(Refused);
      }
      f := Apply(base.value, polls, clean, gives);
    }

    /** POST without the lock, then take the lock again. */
    method Post(posted: string, clean: bool) returns (f: Fate<bool>)
      requires Fresh()
      modifies this`active, this`pending, this`task, this`applied, this`locked
      ensures task == NoTask && applied == [] && locked == (f == Alive(true))
      ensures clean ==> f == Alive(true) && active == old(active) && pending == Some(posted)
    {
      Interfere(clean);
      ghost var es :| Happens(old(State()), es) && After(old(State()), es) == State();
      NoTaskStays(old(State()), es);
      var answered := Ask(clean);
      var written: Option<string>, died: bool := *, *;
      pending := if clean then Some(posted) else written;
      if died && !clean {
        return Died;
      }
      if !answered {
        return Alive(false);
      }
      var held := Acquire(clean);
      return Alive(held);
    }
  }

  /** Whatever happens after the transaction has ended: if it knows that its task has
      stopped, or never issued one, no other file than the verified one is ever renamed
      by it. */
  method Aftermath(n: Network, posted: string, polls: nat) returns (f: Fate<Outcome>)
    requires n.Fresh()
    modifies n
    ensures f.Alive? && f.value != Unknown ==> n.Safe()
  {
    f := n.Create(posted, polls, false, false);
    ghost var ended := n.State();
    n.Interfere(false);
    ghost var es :| Happens(ended, es) && After(ended, es) == n.State();
    if f == Alive(Refused) {
      NoTaskStays(ended, es);
    } else if f.Alive? && f.value != Unknown {
      GuardedStays(ended, es, n.issued[0].pending.value);
    }
  }

  /** A run in which an administrator's edit is applied: the wait is given up while the
      task still has to rename, the lock is released, and the edit comes first. */
  method AbandonedWait(n: Network, posted: string, edit: string)
    requires n.Ready(posted)
    modifies n
    ensures n.active == edit && n.applied == [edit] && n.issued == [Reload(old(n.active), Some(posted))]
  {
    var f := n.Create(posted, 0, true, true);
    n.Step(Edit(n.active, Some(edit)));
    n.Step(Rename);
  }

  /** An edit that adds an interface called `priority` to the staged file passes the
      check like the staged file itself. */
  lemma HiddenEditPasses(n: Network, base: string, staged: string, edited: string, iface: Value)
    requires n.parse(staged).Some? && Shaped(n.parse(staged).value) && "priority" !in Ifaces(n.parse(staged).value)
    requires ShapedIface(iface) && n.parse(edited) == Some(WithIface(n.parse(staged).value, "priority", iface))
    ensures n.Adds(base, staged) <==> n.Adds(base, edited)
    ensures Shaped(n.parse(edited).value) && !SameConfiguration(n.parse(staged).value, n.parse(edited).value)
  {
    HiddenIface(n.parse(staged).value, iface);
  }
}

/** Comma-separated `key=value` texts, as PVE keeps them: what a reader sees in
    one, and how a writer changes some keys and leaves the rest alone. */
module OptionText {
  import opened Common
  import opened Text

  /** One segment: a `key=value` pair after trimming, or something else. */
  datatype Field = Field(key: string, value: string) | NoField

  function Parse(segment: string): Field {
    var c := Cut(TrimSpace(segment), '=');
    if c.found then Field(c.before, c.after) else NoField
  }

  /** A segment is a field exactly when its trimmed text has an equals sign, and then the
      first one separates key and value. */
  lemma ParseExactly(segment: string)
    ensures Parse(segment).NoField? <==> '=' !in TrimSpace(segment)
    ensures Parse(segment).Field? ==>
              '=' !in Parse(segment).key && TrimSpace(segment) == Parse(segment).key + "=" + Parse(segment).value
  {
  }

  /** A field as it is written. */
  function Print(f: Field): string {
    if f.Field? then f.key + "=" + f.value else ""
  }

  function PrintAll(fs: seq<Field>): seq<string> {
    seq(|fs|, i requires 0 <= i < |fs| => Print(fs[i]))
  }

  function ParseAll(segments: seq<string>): (fs: seq<Field>)
    ensures |fs| == |segments| && forall i :: 0 <= i < |fs| ==> fs[i] == Parse(segments[i])
  {
    seq(|segments|, i requires 0 <= i < |segments| => Parse(segments[i]))
  }

  /** The last assignment of a key wins. */
  function Collect(fs: seq<Field>): map<string, string> {
    if fs == [] then map[]
    else
      var before := Collect(fs[..|fs| - 1]);
      match fs[|fs| - 1]
      case Field(k, v) => before[k := v]
      case NoField => before
  }

  /** The fields a reader finds. */
  function Fields(segments: seq<string>): map<string, string> {
    Collect(ParseAll(segments))
  }

  predicate AllFields(fs: seq<Field>) {
    fs == [] || (fs[|fs| - 1].Field? && AllFields(fs[..|fs| - 1]))
  }

  lemma {:induction false} AllFieldsAt(fs: seq<Field>)
    ensures AllFields(fs) <==> forall f :: f in fs ==> f.Field?
  {
    if fs != [] {
      AllFieldsAt(fs[..|fs| - 1]);
      assert fs == fs[..|fs| - 1] + [fs[|fs| - 1]];
    }
  }

  /** Every segment is a `key=value` pair. */
  predicate AllPairs(segments: seq<string>) {
    AllFields(ParseAll(segments))
  }

  function Get(fields: map<string, string>, key: string): string {
    if key in fields then fields[key] else ""
  }

  /** A segment that survives joining, splitting and trimming unchanged. */
  predicate Clean(segment: string) {
    Tight(segment) && ',' !in segment
  }

  predicate AllClean(segments: seq<string>) {
    forall i :: 0 <= i < |segments| ==> Clean(segments[i])
  }

  datatype Edit = Keep | Drop | Put(value: string)

  datatype Change = Change(key: string, edit: Edit)

  function PutIfSome(value: Option<string>): Edit {
    if value.Some? then Put(value.value) else Keep
  }

  predicate CleanKey(key: string) {
    key != "" && '=' !in key && Plain(key, ',')
  }

  /** A fixed key: lower-case letters, digits and underscores. */
  predicate Word(s: string) {
    s != "" && forall i :: 0 <= i < |s| ==> 'a' <= s[i] <= 'z' || '0' <= s[i] <= '9' || s[i] == '_'
  }

  lemma WordIsClean(s: string)
    requires Word(s)
    ensures CleanKey(s)
  {
  }

  predicate CleanChange(c: Change) {
    && CleanKey(c.key)
    && (c.edit.Put? ==> Plain(c.edit.value, ','))
  }

  predicate CleanChanges(cs: seq<Change>) {
    forall i :: 0 <= i < |cs| ==> CleanChange(cs[i])
  }

  /** The key is rewritten or removed, so an old value of it must not survive. */
  predicate Touches(cs: seq<Change>, key: string) {
    exists i :: 0 <= i < |cs| && cs[i].key == key && cs[i].edit != Keep
  }

  function Settings(cs: seq<Change>): map<string, string> {
    if cs == [] then map[]
    else
      var c := cs[|cs| - 1];
      var before := Settings(cs[..|cs| - 1]);
      if c.edit.Put? then before[c.key := c.edit.value] else before
  }

  /** The old fields with every touched key gone and every new value in place. */
  function Override(was: map<string, string>, cs: seq<Change>): map<string, string> {
    (map k | k in was && !Touches(cs, k) :: was[k]) + Settings(cs)
  }

  predicate DistinctKeys(cs: seq<Change>) {
    forall i, j :: 0 <= i < j < |cs| ==> cs[i].key != cs[j].key
  }

  /** Both have the same value for the key, or neither has one. */
  predicate SameAt(a: map<string, string>, b: map<string, string>, key: string) {
    (key in a <==> key in b) && (key in a ==> a[key] == b[key])
  }

  /** The change has been made to its key. */
  predicate Obeys(was: map<string, string>, now: map<string, string>, c: Change) {
    match c.edit
    case Put(v) => c.key in now && now[c.key] == v
    case Drop => c.key !in now
    case Keep => SameAt(was, now, c.key)
  }

  /** With distinct keys, every change is made. */
  lemma OverrideLookup(was: map<string, string>, cs: seq<Change>, i: nat)
    requires i < |cs| && DistinctKeys(cs)
    ensures Obeys(was, Override(was, cs), cs[i])
  {
    SettingsLookup(cs, i);
    if cs[i].edit == Keep {
      assert !Touches(cs, cs[i].key);
    }
  }

  lemma OverrideUntouched(was: map<string, string>, cs: seq<Change>, key: string)
    ensures !Touches(cs, key) ==> SameAt(was, Override(was, cs), key)
  {
    SettingsTouched(cs);
  }

  lemma {:induction false} SettingsLookup(cs: seq<Change>, i: nat)
    requires i < |cs| && DistinctKeys(cs)
    ensures match cs[i].edit
            case Put(v) => cs[i].key in Settings(cs) && Settings(cs)[cs[i].key] == v
            case _ => cs[i].key !in Settings(cs)
  {
    var n := |cs| - 1;
    if i < n {
      SettingsLookup(cs[..n], i);
      assert cs[..n][i] == cs[i];
    } else {
      SettingsKeys(cs[..n]);
    }
  }

  lemma {:induction false} SettingsTouched(cs: seq<Change>)
    ensures forall k :: k in Settings(cs) ==> Touches(cs, k)
  {
    if cs != [] {
      var n := |cs| - 1;
      SettingsTouched(cs[..n]);
      forall k | k in Settings(cs) ensures Touches(cs, k) {
        if k in Settings(cs[..n]) {
          var j :| 0 <= j < n && cs[..n][j].key == k && cs[..n][j].edit != Keep;
          assert cs[j].key == k && cs[j].edit != Keep;
        } else {
          assert cs[n].key == k && cs[n].edit != Keep;
        }
      }
    }
  }

  lemma {:induction false} SettingsKeys(cs: seq<Change>)
    ensures forall k :: k in Settings(cs) ==> exists j :: 0 <= j < |cs| && cs[j].key == k
  {
    if cs != [] {
      var n := |cs| - 1;
      SettingsKeys(cs[..n]);
      forall k | k in Settings(cs) ensures exists j :: 0 <= j < |cs| && cs[j].key == k {
        if k in Settings(cs[..n]) {
          var j :| 0 <= j < n && cs[..n][j].key == k;
          assert cs[j].key == k;
        } else {
          assert cs[n].key == k;
        }
      }
    }
  }

  lemma ParsePair(key: string, value: string)
    requires '=' !in key && Tight(key + "=" + value)
    ensures Parse(key + "=" + value) == Field(key, value)
  {
    CutPair(key, value, '=');
  }

  lemma {:induction false} CollectConcat(a: seq<Field>, b: seq<Field>)
    ensures Collect(a + b) == Collect(a) + Collect(b)
  {
    if b == [] {
      assert a + b == a;
    } else {
      CollectConcat(a, b[..|b| - 1]);
      assert (a + b)[..|a + b| - 1] == a + b[..|b| - 1];
    }
  }

  lemma {:induction false} FieldsConcat(a: seq<string>, b: seq<string>)
    ensures Fields(a + b) == Fields(a) + Fields(b)
  {
    assert ParseAll(a + b) == ParseAll(a) + ParseAll(b);
    CollectConcat(ParseAll(a), ParseAll(b));
  }

  lemma {:induction false} AllFieldsConcat(a: seq<Field>, b: seq<Field>)
    requires AllFields(a) && AllFields(b)
    ensures AllFields(a + b)
  {
    if b == [] {
      assert a + b == a;
    } else {
      AllFieldsConcat(a, b[..|b| - 1]);
      assert (a + b)[..|a + b| - 1] == a + b[..|b| - 1];
    }
  }

  lemma {:induction false} ParseAllConcat(a: seq<string>, b: seq<string>)
    ensures ParseAll(a + b) == ParseAll(a) + ParseAll(b)
  {
  }

  lemma {:induction false} PairsConcat(a: seq<string>, b: seq<string>)
    requires AllPairs(a) && AllPairs(b)
    ensures AllPairs(a + b)
  {
    ParseAllConcat(a, b);
    AllFieldsConcat(ParseAll(a), ParseAll(b));
  }

  lemma FieldsOne(segment: string)
    ensures Fields([segment]) == match Parse(segment) case Field(k, v) => map[k := v] case NoField => map[]
  {
    var fs := ParseAll([segment]);
    assert fs == [Parse(segment)] && fs[..0] == [] && Collect(fs[..0]) == map[];
  }

  lemma FieldsSnoc(segments: seq<string>, i: nat)
    requires i < |segments|
    ensures Fields(segments[..i + 1]) ==
            match Parse(segments[i])
            case Field(k, v) => Fields(segments[..i])[k := v]
            case NoField => Fields(segments[..i])
  {
    assert segments[..i + 1] == segments[..i] + [segments[i]];
    FieldsConcat(segments[..i], [segments[i]]);
    FieldsOne(segments[i]);
  }

  /** A segment of a split text is kept, after trimming, as a clean pair. */
  lemma KeptSegment(s: string, i: nat)
    requires i < |Split(s, ',')| && Parse(Split(s, ',')[i]).Field?
    ensures var f := Parse(Split(s, ',')[i]);
            Clean(f.key + "=" + f.value) && Parse(f.key + "=" + f.value) == f
  {
    SplitPieces(s, ',');
    var f := Parse(Split(s, ',')[i]);
    assert TrimSpace(Split(s, ',')[i]) == f.key + "=" + f.value;
  }

  /** What appending one kept segment does to the segments and to their parse. */
  lemma KeepSegment(out: seq<string>, s: string, i: nat)
    requires AllClean(out) && i < |Split(s, ',')| && Parse(Split(s, ',')[i]).Field?
    ensures var f := Parse(Split(s, ',')[i]);
            var next := out + [f.key + "=" + f.value];
            AllClean(next) && ParseAll(next) == ParseAll(out) + [f]
  {
    KeptSegment(s, i);
  }

  /** Reading back joined clean segments gives the fields of those segments. */
  lemma FieldsOfJoined(segments: seq<string>)
    requires AllClean(segments)
    ensures Fields(Split(Join(segments, ','), ',')) == Fields(segments)
    ensures segments != [] ==> Split(Join(segments, ','), ',') == segments
  {
    if segments == [] {
      FieldsOne("");
    } else {
      SplitJoin(segments, ',');
    }
  }

  lemma CleanPair(c: Change)
    requires CleanChange(c) && c.edit.Put?
    ensures Clean(c.key + "=" + c.edit.value)
  {
    var s := c.key + "=" + c.edit.value;
    assert s[0] == c.key[0];
    if c.edit.value == "" {
      assert s[|s| - 1] == '=';
    } else {
      assert s[|s| - 1] == c.edit.value[|c.edit.value| - 1];
    }
  }

  /** The segments that put the new values, in order. */
  function Rendered(cs: seq<Change>): seq<string> {
    if cs == [] then []
    else
      var c := cs[|cs| - 1];
      Rendered(cs[..|cs| - 1]) + (if c.edit.Put? then [c.key + "=" + c.edit.value] else [])
  }

  lemma FieldsAppend(segments: seq<string>, c: Change)
    requires CleanChange(c) && c.edit.Put?
    ensures var segment := c.key + "=" + c.edit.value;
            && Clean(segment) && Parse(segment).Field?
            && Fields(segments + [segment]) == Fields(segments)[c.key := c.edit.value]
  {
    var segment := c.key + "=" + c.edit.value;
    CleanPair(c);
    ParsePair(c.key, c.edit.value);
    FieldsConcat(segments, [segment]);
    FieldsOne(segment);
  }

  lemma OnePair(c: Change)
    requires CleanChange(c) && c.edit.Put?
    ensures var one := [c.key + "=" + c.edit.value];
            AllClean(one) && AllPairs(one) && Fields(one) == map[c.key := c.edit.value]
  {
    var segment := c.key + "=" + c.edit.value;
    FieldsAppend([], c);
    FieldsOne(segment);
    var fs := ParseAll([segment]);
    assert fs[..0] == [] && AllFields(fs[..0]);
  }

  lemma {:induction false} RenderedFields(cs: seq<Change>)
    requires CleanChanges(cs)
    ensures Fields(Rendered(cs)) == Settings(cs)
  {
    if cs != [] {
      var n := |cs| - 1;
      RenderedFields(cs[..n]);
      if cs[n].edit.Put? {
        FieldsAppend(Rendered(cs[..n]), cs[n]);
      } else {
        assert Rendered(cs) == Rendered(cs[..n]);
      }
    }
  }

  lemma {:induction false} RenderedClean(cs: seq<Change>)
    requires CleanChanges(cs)
    ensures forall s :: s in Rendered(cs) ==> Clean(s) && Parse(s).Field?
  {
    if cs != [] {
      var n := |cs| - 1;
      RenderedClean(cs[..n]);
      if cs[n].edit.Put? {
        FieldsAppend([], cs[n]);
      }
    }
  }

  lemma OverrideNothing(cs: seq<Change>)
    ensures Override(map[], cs) == Settings(cs)
  {
    var none: map<string, string> := map[];
    assert (map k | k in none && !Touches(cs, k) :: none[k]) == none;
    assert none + Settings(cs) == Settings(cs);
  }

  lemma NoFields()
    ensures Fields(Split("", ',')) == map[]
  {
    FieldsOne("");
  }

  /** New values alone are what overriding an empty text gives. */
  lemma {:induction false} JoinedChanges(cs: seq<Change>)
    requires CleanChanges(cs)
    ensures Fields(Split(Join(Rendered(cs), ','), ',')) == Override(Fields(Split("", ',')), cs)
  {
    RenderedFields(cs);
    RenderedClean(cs);
    FieldsOfJoined(Rendered(cs));
    NoFields();
    OverrideNothing(cs);
  }

  /** Append the changed keys' new values, in order. */
  method Append(kept: seq<string>, cs: seq<Change>) returns (out: seq<string>)
    ensures out == kept + Rendered(cs)
  {
    out := kept;
    for i := 0 to |cs|
      invariant out == kept + Rendered(cs[..i])
    {
      assert cs[..i + 1][..i] == cs[..i];
      if cs[i].edit.Put? {
        out := out + [cs[i].key + "=" + cs[i].edit.value];
      }
    }
    assert cs[..|cs|] == cs;
  }

  method AppendChanges(kept: seq<string>, cs: seq<Change>) returns (out: seq<string>)
    requires AllClean(kept) && AllPairs(kept) && CleanChanges(cs)
    ensures out == kept + Rendered(cs)
    ensures AllClean(out) && AllPairs(out) && Fields(out) == Fields(kept) + Settings(cs)
  {
    out := Append(kept, cs);
    RenderedFields(cs);
    RenderedClean(cs);
    AllFieldsAt(ParseAll(kept));
    AllFieldsAt(ParseAll(out));
    FieldsConcat(kept, Rendered(cs));
  }

  /** The reader's loop: remember the last value of every key, skip the rest. */
  method ReadFields(segments: seq<string>) returns (fields: map<string, string>)
    ensures fields == Fields(segments)
  {
    fields := map[];
    for i := 0 to |segments|
      invariant fields == Fields(segments[..i])
    {
      FieldsSnoc(segments, i);
      var f := Parse(segments[i]);
      if f.Field? {
        fields := fields[f.key := f.value];
      }
    }
    assert segments[..|segments|] == segments;
  }

  /** The stricter reader's loop, which refuses a segment that is not a pair. */
  method ReadPairs(segments: seq<string>) returns (r: Option<map<string, string>>)
    ensures r.Some? <==> AllPairs(segments)
    ensures r.Some? ==> r.value == Fields(segments)
  {
    var fs, fields := ParseAll(segments), map[];
    for i := 0 to |fs|
      invariant AllFields(fs[..i]) && fields == Collect(fs[..i])
    {
      assert fs[..i + 1][..i] == fs[..i];
      match fs[i] {
        case Field(k, v) =>
          fields := fields[k := v];
        case NoField =>
          AllFieldsAt(fs);
          assert fs[i] in fs;
          return None;
      }
    }
    assert fs[..|fs|] == fs;
    return Some(fields);
  }
}

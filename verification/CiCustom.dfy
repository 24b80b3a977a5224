/** A guest's custom cloud-init text: which snippet volume each component names. */
module CiCustom {
  import opened Common
  import opened Text

  const KEYS := ["user", "network", "vendor", "meta"]

  predicate NameChar(c: char) {
    'a' <= c <= 'z' || 'A' <= c <= 'Z' || '0' <= c <= '9' || c == '.' || c == '_' || c == '-'
  }

  predicate AllNameChars(s: string) {
    forall c :: c in s ==> NameChar(c)
  }

  /** A letter or digit, then at most `most` name characters. */
  predicate ShortName(s: string, most: nat) {
    1 <= |s| <= most + 1 && AllNameChars(s) && s[0] != '.' && s[0] != '_' && s[0] != '-'
  }

  predicate StorageName(s: string) {
    ShortName(s, 63)
  }

  predicate NodeName(s: string) {
    ShortName(s, 127)
  }

  predicate FileName(s: string) {
    1 <= |s| <= 255 && AllNameChars(s) && s[0] != '.' && s[|s| - 1] != '.'
  }

  predicate IsControl(c: char) {
    c as int < 0x20 || 0x7F <= c as int < 0xA0
  }

  function Count(s: string, c: char): nat {
    if s == "" then 0 else (if s[0] == c then 1 else 0) + Count(s[1..], c)
  }

  const PREFIX := "snippets/"

  /** The checks made on a volume, in the order they are made. */
  predicate ValidVolume(v: string) {
    && v != "" && TrimSpace(v) == v && Count(v, ':') == 1
    && (forall c :: c in v ==> c != '\\' && c != '%' && c != '\0' && !IsControl(c))
    && var cut := Cut(v, ':');
    && cut.found && StorageName(cut.before) && PREFIX <= cut.after
    && var file := cut.after[|PREFIX|..];
    && file != "" && file != "." && file != ".." && '/' !in file
    && file[0] != '.' && file[|file| - 1] != '.' && |file| <= 255 && AllNameChars(file)
  }

  /** What those checks amount to: a storage name, a fixed prefix and a file name. */
  ghost predicate Volume(v: string) {
    exists storage, file :: StorageName(storage) && FileName(file) && v == Printed(storage, file)
  }

  function Printed(storage: string, file: string): string {
    storage + ":" + (PREFIX + file)
  }

  lemma {:induction false} CountConcat(a: string, b: string, c: char)
    ensures Count(a + b, c) == Count(a, c) + Count(b, c)
  {
    if a == "" {
      assert a + b == b;
    } else {
      CountConcat(a[1..], b, c);
      assert (a + b)[1..] == a[1..] + b;
    }
  }

  lemma {:induction false} CountNone(s: string, c: char)
    ensures Count(s, c) == 0 <==> c !in s
  {
    if s != "" {
      CountNone(s[1..], c);
      assert s == [s[0]] + s[1..];
    }
  }

  predicate VolumeChar(c: char) {
    NameChar(c) || c == ':' || c == '/'
  }

  predicate VolumeChars(s: string) {
    forall c :: c in s ==> VolumeChar(c)
  }

  lemma VolumeCharsConcat(a: string, b: string)
    requires VolumeChars(a) && VolumeChars(b)
    ensures VolumeChars(a + b)
  {
  }

  lemma PrintedChars(storage: string, file: string)
    requires AllNameChars(storage) && AllNameChars(file)
    ensures VolumeChars(Printed(storage, file))
  {
    VolumeCharsConcat(PREFIX, file);
    VolumeCharsConcat(storage, ":");
    VolumeCharsConcat(storage + ":", PREFIX + file);
  }

  lemma PrintedIsTight(storage: string, file: string)
    requires StorageName(storage) && FileName(file)
    ensures Tight(Printed(storage, file))
  {
    var v := Printed(storage, file);
    assert storage[0] in storage && file[|file| - 1] in file;
    assert v[0] == storage[0] && v[|v| - 1] == file[|file| - 1];
  }

  lemma VolumeCharIsSafe(c: char)
    requires VolumeChar(c)
    ensures c != '\\' && c != '%' && c != '\0' && c != '\r' && c != '\n' && !IsControl(c) && c != ',' && c != '='
  {
  }

  lemma PrintedCut(storage: string, file: string)
    requires StorageName(storage)
    ensures Cut(Printed(storage, file), ':') == Cutting(storage, PREFIX + file, true)
    ensures (PREFIX + file)[|PREFIX|..] == file
  {
    CutPair(storage, PREFIX + file, ':');
  }

  lemma {:induction false} PrintedIsValid(storage: string, file: string)
    requires StorageName(storage) && FileName(file)
    ensures ValidVolume(Printed(storage, file))
  {
    var v := Printed(storage, file);
    PrintedCut(storage, file);
    PrintedHasOneColon(storage, file);
    PrintedIsTight(storage, file);
    PrintedChars(storage, file);
    CharsAreSafe(v);
    FileIsAccepted(file);
  }

  lemma CharsAreSafe(v: string)
    requires VolumeChars(v)
    ensures forall c :: c in v ==> c != '\\' && c != '%' && c != '\0' && !IsControl(c)
  {
    forall c | c in v ensures c != '\\' && c != '%' && c != '\0' && !IsControl(c) {
      VolumeCharIsSafe(c);
    }
  }

  lemma FileIsAccepted(file: string)
    requires FileName(file)
    ensures file != "." && file != ".." && '/' !in file
  {
  }

  lemma PrintedHasOneColon(storage: string, file: string)
    requires ':' !in storage && ':' !in file
    ensures Count(Printed(storage, file), ':') == 1
  {
    CountConcat(storage, ":" + (PREFIX + file), ':');
    assert Printed(storage, file) == storage + (":" + (PREFIX + file));
    CountConcat(":", PREFIX + file, ':');
    assert ":"[1..] == "";
    CountNone(storage, ':');
    CountNone(PREFIX + file, ':');
  }

  /** The volume check accepts exactly the printed form. */
  lemma VolumeGrammar(v: string)
    ensures ValidVolume(v) <==> Volume(v)
  {
    if ValidVolume(v) {
      var cut := Cut(v, ':');
      var file := cut.after[|PREFIX|..];
      assert cut.after == PREFIX + file;
      assert v == Printed(cut.before, file);
    }
    if Volume(v) {
      var storage, file :| StorageName(storage) && FileName(file) && v == Printed(storage, file);
      PrintedIsValid(storage, file);
    }
  }

  /** Valid volumes never contain the two separators, and are short. */
  lemma VolumeIsPlain(v: string)
    requires Volume(v)
    ensures VolumeChars(v) && v != "" && |v| <= 329
  {
    var storage, file :| StorageName(storage) && FileName(file) && v == Printed(storage, file);
    PrintedChars(storage, file);
  }

  // ------------------------------------------------------------------- Parsing

  /** One component added to what was parsed so far. */
  function ParseComponent(m: map<string, string>, component: string, keys: seq<string>, valid: string -> bool)
    : Result<map<string, string>>
  {
    var c := Cut(component, '=');
    if !c.found || c.before == "" || c.after == "" || '=' in c.after then Err
    else if c.before !in keys then Err
    else if c.before in m || !valid(c.after) then Err
    else Ok(m[c.before := c.after])
  }

  function ParseComponents(components: seq<string>, keys: seq<string>, valid: string -> bool): Result<map<string, string>> {
    if components == [] then Ok(map[])
    else
      var before := ParseComponents(components[..|components| - 1], keys, valid);
      if before.Err? then Err else ParseComponent(before.value, components[|components| - 1], keys, valid)
  }

  function Parse(text: string): Result<map<string, string>> {
    if text == "" then Ok(map[]) else ParseComponents(Split(text, ','), KEYS, ValidVolume)
  }

  lemma {:induction false} ErrorsStay(components: seq<string>, i: nat, keys: seq<string>, valid: string -> bool)
    requires i <= |components| && ParseComponents(components[..i], keys, valid).Err?
    ensures ParseComponents(components, keys, valid).Err?
  {
    if i < |components| {
      assert components[..|components| - 1][..i] == components[..i];
      ErrorsStay(components[..|components| - 1], i, keys, valid);
    } else {
      assert components[..i] == components;
    }
  }

  method ParseEach(components: seq<string>, keys: seq<string>, valid: string -> bool) returns (r: Result<map<string, string>>)
    ensures r == ParseComponents(components, keys, valid)
  {
    var m: map<string, string> := map[];
    for i := 0 to |components|
      invariant ParseComponents(components[..i], keys, valid) == Ok(m)
    {
      assert components[..i + 1][..i] == components[..i];
      var next := ParseComponent(m, components[i], keys, valid);
      if next.Err? {
        ErrorsStay(components, i + 1, keys, valid);
        return Err;
      }
      m := next.value;
    }
    assert components[..|components|] == components;
    return Ok(m);
  }

  method ParseText(text: string) returns (r: Result<map<string, string>>)
    ensures r == Parse(text)
    ensures r.Ok? ==> ValidCustom(r.value, KEYS, ValidVolume)
  {
    if text == "" {
      return Ok(map[]);
    }
    r := ParseEach(Split(text, ','), KEYS, ValidVolume);
    ParsedIsValid(Split(text, ','), KEYS, ValidVolume);
  }

  /** The component maps that can be written down at all. */
  predicate ValidCustom(m: map<string, string>, keys: seq<string>, valid: string -> bool) {
    forall k :: k in m ==> k in keys && valid(m[k])
  }

  lemma {:induction false} ParsedIsValid(components: seq<string>, keys: seq<string>, valid: string -> bool)
    ensures var r := ParseComponents(components, keys, valid); r.Ok? ==> ValidCustom(r.value, keys, valid)
  {
    if components != [] {
      ParsedIsValid(components[..|components| - 1], keys, valid);
    }
  }

  // ------------------------------------------------------------------ Printing

  /** The named components that are present, printed in the given order. */
  function Print(order: seq<string>, m: map<string, string>): seq<string> {
    if order == [] then []
    else
      var k := order[|order| - 1];
      Print(order[..|order| - 1], m) + (if k in m && m[k] != "" then [k + "=" + m[k]] else [])
  }

  function Restrict(m: map<string, string>, keys: seq<string>): map<string, string> {
    map k | k in m && k in keys :: m[k]
  }

  /** Text that neither separator can split. */
  predicate Whole(s: string) {
    s != "" && ',' !in s && '=' !in s
  }

  /** Keys and volumes cannot be mistaken for separators. */
  ghost predicate Separable(keys: seq<string>, valid: string -> bool) {
    (forall k :: k in keys ==> Whole(k)) && (forall v :: valid(v) ==> Whole(v))
  }

  lemma VolumeIsWhole(v: string)
    requires ValidVolume(v)
    ensures Whole(v)
  {
    VolumeGrammar(v);
    VolumeIsPlain(v);
  }

  lemma KeyIsWhole(k: string)
    requires k in KEYS
    ensures Whole(k)
  {
  }

  lemma CustomIsSeparable()
    ensures Separable(KEYS, ValidVolume)
  {
    forall k | k in KEYS ensures Whole(k) {
      KeyIsWhole(k);
    }
    forall v | ValidVolume(v) ensures Whole(v) {
      VolumeIsWhole(v);
    }
  }

  lemma ComponentParses(m: map<string, string>, key: string, volume: string, keys: seq<string>, valid: string -> bool)
    requires Separable(keys, valid) && key in keys && valid(volume) && key !in m
    ensures ParseComponent(m, key + "=" + volume, keys, valid) == Ok(m[key := volume])
    ensures ',' !in key + "=" + volume
  {
    assert Whole(key) && Whole(volume);
    CutPair(key, volume, '=');
  }

  lemma RestrictSnoc(m: map<string, string>, order: seq<string>, k: string)
    ensures Restrict(m, order + [k]) == if k in m then Restrict(m, order)[k := m[k]] else Restrict(m, order)
  {
  }

  /** Parsing the components printed in any order gives back those components. */
  lemma {:induction false} ParsePrinted(order: seq<string>, m: map<string, string>, keys: seq<string>, valid: string -> bool)
    requires Separable(keys, valid) && ValidCustom(m, keys, valid) && Distinct(order)
    ensures ParseComponents(Print(order, m), keys, valid) == Ok(Restrict(m, order))
  {
    if order == [] {
      assert Restrict(m, order) == map[];
    } else {
      var n := |order| - 1;
      var k := order[n];
      ParsePrinted(order[..n], m, keys, valid);
      assert order == order[..n] + [k];
      RestrictSnoc(m, order[..n], k);
      if k in m {
        PrintedSnoc(order[..n], k, m, keys, valid);
      } else {
        assert Print(order, m) == Print(order[..n], m);
      }
    }
  }

  lemma {:induction false} PrintedParts(order: seq<string>, m: map<string, string>, keys: seq<string>, valid: string -> bool)
    requires Separable(keys, valid) && ValidCustom(m, keys, valid)
    ensures forall s :: s in Print(order, m) ==> ',' !in s && s != ""
  {
    if order != [] {
      PrintedParts(order[..|order| - 1], m, keys, valid);
    }
  }

  lemma {:induction false} PrintedSnoc(order: seq<string>, k: string, m: map<string, string>, keys: seq<string>, valid: string -> bool)
    requires Separable(keys, valid) && ValidCustom(m, keys, valid) && k in m && k !in order
    requires ParseComponents(Print(order, m), keys, valid) == Ok(Restrict(m, order))
    ensures var printed := Print(order, m) + [k + "=" + m[k]];
            m[k] != "" && ParseComponents(printed, keys, valid) == Ok(Restrict(m, order)[k := m[k]])
  {
    ComponentParses(Restrict(m, order), k, m[k], keys, valid);
    var printed := Print(order, m) + [k + "=" + m[k]];
    assert printed[..|printed| - 1] == Print(order, m);
  }

  /** Every order of every valid combination is read back exactly. */
  lemma {:induction false} PrintParses(order: seq<string>, m: map<string, string>)
    requires ValidCustom(m, KEYS, ValidVolume) && Distinct(order)
    ensures Parse(Join(Print(order, m), ',')) == Ok(Restrict(m, order))
  {
    CustomIsSeparable();
    ParsePrinted(order, m, KEYS, ValidVolume);
    PrintedParts(order, m, KEYS, ValidVolume);
    var parts := Print(order, m);
    if parts != [] {
      SplitJoin(parts, ',');
    }
    JoinedIsEmpty(parts);
  }

  lemma JoinedIsEmpty(parts: seq<string>)
    requires forall s :: s in parts ==> s != ""
    ensures Join(parts, ',') == "" <==> parts == []
  {
    if parts != [] {
      assert parts[0] in parts;
    }
  }

  const ORDER := ["user", "vendor", "meta"]

  /** The fixed order, which leaves the network component out. */
  method PrintWithoutNetwork(m: map<string, string>) returns (parts: seq<string>)
    ensures parts == Print(ORDER, m)
  {
    parts := [];
    ghost var done := 0;
    for i := 0 to |KEYS|
      invariant done == (if i < 2 then i else i - 1) && parts == Print(ORDER[..done], m)
    {
      if KEYS[i] != "network" {
        assert ORDER[..done + 1][..done] == ORDER[..done];
        if KEYS[i] in m && m[KEYS[i]] != "" {
          parts := parts + [KEYS[i] + "=" + m[KEYS[i]]];
        }
        done := done + 1;
      }
    }
    assert ORDER[..3] == ORDER;
  }

  lemma OtherComponents(m: map<string, string>)
    requires forall k :: k in m ==> k in KEYS
    ensures Restrict(m, ORDER) == m - {"network"}
  {
    forall k | k in KEYS ensures k in ORDER <==> k != "network" {
    }
  }

  /** Print every component but the network one: reading the text back gives exactly
      the other components. */
  method WithoutNetwork(m: map<string, string>) returns (text: string)
    requires ValidCustom(m, KEYS, ValidVolume)
    ensures Parse(text) == Ok(m - {"network"})
  {
    var parts := PrintWithoutNetwork(m);
    PrintParses(ORDER, m);
    OtherComponents(m);
    text := Join(parts, ',');
  }

  // --------------------------------------------------------------- Readability

  ghost predicate AllReadable(keys: seq<string>, valid: string -> bool) {
    (forall k :: k in keys ==> Readable(k, 7)) && (forall v :: valid(v) ==> Readable(v, 329))
  }

  lemma CustomIsReadable()
    ensures AllReadable(KEYS, ValidVolume)
  {
    forall k | k in KEYS ensures Readable(k, 7) {
      KeyIsReadable(k);
    }
    forall v | ValidVolume(v) ensures Readable(v, 329) {
      VolumeGrammar(v);
      VolumeIsPlain(v);
    }
  }

  lemma KeyIsReadable(k: string)
    requires k in KEYS
    ensures Readable(k, 7)
  {
  }

  lemma {:induction false} ParsedComponents(components: seq<string>, keys: seq<string>, valid: string -> bool)
    requires AllReadable(keys, valid) && ParseComponents(components, keys, valid).Ok?
    ensures |ParseComponents(components, keys, valid).value| == |components|
    ensures forall c :: c in components ==> Readable(c, 337)
  {
    if components != [] {
      var n := |components| - 1;
      ParsedComponents(components[..n], keys, valid);
      assert components == components[..n] + [components[n]];
      var cut := Cut(components[n], '=');
      ReadablePair(cut.before, cut.after);
    }
  }

  lemma ReadablePair(key: string, value: string)
    requires Readable(key, 7) && Readable(value, 329)
    ensures Readable(key + "=" + value, 337)
  {
  }

  lemma {:induction false} JoinedLength(parts: seq<string>, most: nat)
    requires forall s :: s in parts ==> Readable(s, most)
    ensures Readable(Join(parts, ','), |parts| * (most + 1))
  {
    if |parts| > 1 {
      JoinedLength(parts[1..], most);
      assert parts[0] in parts;
      assert (|parts| - 1) * (most + 1) + (most + 1) == |parts| * (most + 1);
    } else if |parts| == 1 {
      assert parts[0] in parts;
    }
  }

  lemma {:induction false} AtMostAsMany(a: set<string>, s: seq<string>)
    requires forall x :: x in a ==> x in s
    ensures |a| <= |s|
  {
    if s == [] {
      assert a == {};
    } else {
      var n := |s| - 1;
      assert s == s[..n] + [s[n]];
      AtMostAsMany(a - {s[n]}, s[..n]);
      assert a <= (a - {s[n]}) + {s[n]};
    }
  }

  lemma {:induction false} ParsedLength(components: seq<string>, keys: seq<string>, valid: string -> bool)
    requires AllReadable(keys, valid) && ParseComponents(components, keys, valid).Ok?
    ensures Readable(Join(components, ','), |keys| * 338)
  {
    ParsedComponents(components, keys, valid);
    ParsedIsValid(components, keys, valid);
    JoinedLength(components, 337);
    var m := ParseComponents(components, keys, valid).value;
    AtMostAsMany(m.Keys, keys);
    assert |m.Keys| == |m|;
    assert |components| * 338 <= |keys| * 338;
  }

  /** A text that parses is always one the configuration reader accepts: a text the
      reader treats as absent could not have been parsed. */
  lemma {:induction false} ParsedIsReadable(text: string)
    requires Parse(text).Ok?
    ensures Readable(text, 4096)
  {
    if text != "" {
      CustomIsReadable();
      ParsedLength(Split(text, ','), KEYS, ValidVolume);
      JoinSplit(text, ',');
    }
  }
}

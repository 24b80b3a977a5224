/** The string functions the configuration texts are built from, and the facts
    that let a writer and a separate reader agree. */
module Text {
  /** Split at every separator; never empty, as in Go's `strings.Split`. */
  function Split(s: string, sep: char): (parts: seq<string>)
    ensures |parts| >= 1
  {
    if s == "" then [""]
    else
      var rest := Split(s[1..], sep);
      if s[0] == sep then [""] + rest else [[s[0]] + rest[0]] + rest[1..]
  }

  function Join(parts: seq<string>, sep: char): string {
    if parts == [] then ""
    else if |parts| == 1 then parts[0]
    else parts[0] + [sep] + Join(parts[1..], sep)
  }

  /** The text before and after the first separator, if there is one. */
  datatype Cutting = Cutting(before: string, after: string, found: bool)

  function Cut(s: string, sep: char): (c: Cutting)
    ensures c.found <==> sep in s
    ensures c.found ==> s == c.before + [sep] + c.after && sep !in c.before
    ensures !c.found ==> c.before == s && c.after == ""
  {
    if s == "" then Cutting("", "", false)
    else if s[0] == sep then Cutting("", s[1..], true)
    else
      var rest := Cut(s[1..], sep);
      Cutting([s[0]] + rest.before, rest.after, rest.found)
  }

  /** Unicode white space, as Go's `unicode.IsSpace` has it. */
  predicate IsSpace(c: char) {
    var n := c as int;
    || 0x09 <= n <= 0x0D || n == 0x20 || n == 0x85 || n == 0xA0 || n == 0x1680
    || 0x2000 <= n <= 0x200A || n == 0x2028 || n == 0x2029 || n == 0x202F || n == 0x205F || n == 0x3000
  }

  function TrimSpace(s: string): (t: string)
    ensures Tight(t)
    ensures Tight(s) ==> t == s
    ensures forall c :: c in t ==> c in s
  {
    if s == "" then ""
    else if IsSpace(s[0]) then TrimSpace(s[1..])
    else if IsSpace(s[|s| - 1]) then TrimSpace(s[..|s| - 1])
    else s
  }

  /** Neither end is white space. */
  predicate Tight(s: string) {
    s != "" ==> !IsSpace(s[0]) && !IsSpace(s[|s| - 1])
  }

  /** No character of `s` is white space or the separator. */
  predicate Plain(s: string, sep: char) {
    forall c :: c in s ==> !IsSpace(c) && c != sep
  }

  lemma {:induction false} SplitPieces(s: string, sep: char)
    ensures forall i :: 0 <= i < |Split(s, sep)| ==> sep !in Split(s, sep)[i]
    ensures forall i, c :: 0 <= i < |Split(s, sep)| && c in Split(s, sep)[i] ==> c in s
  {
    if s != "" {
      SplitPieces(s[1..], sep);
      assert forall c :: c in s[1..] ==> c in s;
      var rest := Split(s[1..], sep);
      forall i | 0 <= i < |Split(s, sep)|
        ensures sep !in Split(s, sep)[i] && forall c :: c in Split(s, sep)[i] ==> c in s
      {
        if s[0] == sep {
          assert i > 0 ==> Split(s, sep)[i] == rest[i - 1];
        } else {
          assert i > 0 ==> Split(s, sep)[i] == rest[i];
        }
      }
    }
  }

  lemma {:induction false} SplitWhole(s: string, sep: char)
    requires sep !in s
    ensures Split(s, sep) == [s]
  {
    if s != "" {
      SplitWhole(s[1..], sep);
      assert s == [s[0]] + s[1..];
    }
  }

  lemma {:induction false} SplitFirst(a: string, b: string, sep: char)
    requires sep !in a
    ensures Split(a + [sep] + b, sep) == [a] + Split(b, sep)
  {
    var s := a + [sep] + b;
    if a == "" {
      assert s[1..] == b;
    } else {
      SplitFirst(a[1..], b, sep);
      assert s[1..] == a[1..] + [sep] + b;
      assert a == [a[0]] + a[1..];
    }
  }

  /** Splitting undoes joining when no piece holds the separator. */
  lemma {:induction false} SplitJoin(parts: seq<string>, sep: char)
    requires parts != [] && forall i :: 0 <= i < |parts| ==> sep !in parts[i]
    ensures Split(Join(parts, sep), sep) == parts
  {
    if |parts| == 1 {
      SplitWhole(parts[0], sep);
    } else {
      SplitJoin(parts[1..], sep);
      SplitFirst(parts[0], Join(parts[1..], sep), sep);
    }
  }

  lemma {:induction false} JoinSplit(s: string, sep: char)
    ensures Join(Split(s, sep), sep) == s
  {
    if s != "" {
      JoinSplit(s[1..], sep);
      var rest := Split(s[1..], sep);
      if s[0] == sep {
        assert ([""] + rest)[1..] == rest;
      } else {
        assert Split(s, sep)[1..] == rest[1..];
      }
    }
  }

  lemma {:induction false} JoinChars(parts: seq<string>, sep: char)
    ensures forall c :: c in Join(parts, sep) ==> c == sep || exists i :: 0 <= i < |parts| && c in parts[i]
  {
    if |parts| > 1 {
      JoinChars(parts[1..], sep);
      forall c | c in Join(parts, sep) && c != sep
        ensures exists i :: 0 <= i < |parts| && c in parts[i]
      {
        if c !in parts[0] {
          assert c in Join(parts[1..], sep);
          var i :| 0 <= i < |parts[1..]| && c in parts[1..][i];
          assert c in parts[i + 1];
        }
      }
    } else if |parts| == 1 {
      assert Join(parts, sep) == parts[0];
    }
  }

  lemma Behind(s: string, i: nat)
    requires 0 < i < |s|
    ensures s[1..][..i - 1] == s[..i][1..] && s[1..][i..] == s[i + 1..] && s[..i] == [s[0]] + s[1..][..i - 1]
  {
  }

  lemma {:induction false} CutAt(s: string, i: nat, sep: char)
    requires i < |s| && s[i] == sep && sep !in s[..i]
    ensures Cut(s, sep) == Cutting(s[..i], s[i + 1..], true)
  {
    if i > 0 {
      assert s[0] == s[..i][0];
      Behind(s, i);
      CutAt(s[1..], i - 1, sep);
    }
  }

  lemma CutPair(key: string, value: string, sep: char)
    requires sep !in key
    ensures Cut(key + [sep] + value, sep) == Cutting(key, value, true)
  {
    var s := key + [sep] + value;
    assert s[..|key|] == key && s[|key|] == sep && s[|key| + 1..] == value;
    CutAt(s, |key|, sep);
  }

  /** Decimal text of an integer. */
  function Itoa(n: int): (s: string)
    ensures s != "" && forall c :: c in s ==> c == '-' || '0' <= c <= '9'
    decreases n < 0, if n < 0 then -n else n
  {
    if n < 0 then "-" + Itoa(-n)
    else if n < 10 then [('0' as int + n) as char]
    else Itoa(n / 10) + [('0' as int + n % 10) as char]
  }

  function LowerChar(c: char): char {
    if 'A' <= c <= 'Z' then (c as int + 32) as char else c
  }

  /** Two characters have the same lower case when they are the same letter. */
  predicate SameLetter(x: char, y: char) {
    || x == y
    || ('A' <= x <= 'Z' && y as int == x as int + 32)
    || ('A' <= y <= 'Z' && x as int == y as int + 32)
  }

  lemma LowerAlike(x: char, y: char)
    ensures LowerChar(x) == LowerChar(y) <==> SameLetter(x, y)
  {
    assert LowerChar(x) as int == if 'A' <= x <= 'Z' then x as int + 32 else x as int;
    assert LowerChar(y) as int == if 'A' <= y <= 'Z' then y as int + 32 else y as int;
    if LowerChar(x) as int == LowerChar(y) as int {
      assert x as int == y as int ==> x == y;
    }
  }

  /** ASCII lower case. */
  function Lower(s: string): string {
    seq(|s|, i requires 0 <= i < |s| => LowerChar(s[i]))
  }

  /** Short, and without the characters that make a configuration value unreadable. */
  predicate Readable(s: string, most: nat) {
    |s| <= most && forall c :: c in s ==> c != '\r' && c != '\n' && c != '\0'
  }

  predicate AllSpace(s: string) {
    forall c :: c in s ==> IsSpace(c)
  }

  lemma OneBefore(s: string, i: nat, j: nat)
    requires s != "" && i <= j < |s|
    ensures s[1..][i..j] == s[i + 1..j + 1] && s[1..][j..] == s[j + 1..] && s[..i + 1] == [s[0]] + s[1..][..i]
  {
  }

  lemma OneBehind(s: string, i: nat, j: nat)
    requires s != "" && i <= j < |s|
    ensures var n := |s| - 1;
            s[..n][i..j] == s[i..j] && s[..n][..i] == s[..i] && s[j..] == s[..n][j..] + [s[n]]
  {
  }

  /** Trimming cuts white space off both ends and nothing else. */
  lemma {:induction false} TrimCuts(s: string) returns (i: nat, j: nat)
    ensures i <= j <= |s| && TrimSpace(s) == s[i..j] && AllSpace(s[..i]) && AllSpace(s[j..])
  {
    i, j := 0, |s|;
    if s == "" {
    } else if IsSpace(s[0]) {
      i, j := TrimCuts(s[1..]);
      OneBefore(s, i, j);
      i, j := i + 1, j + 1;
    } else if IsSpace(s[|s| - 1]) {
      i, j := TrimCuts(s[..|s| - 1]);
      OneBehind(s, i, j);
    }
  }

  predicate AllDigits(s: string) {
    forall c :: c in s ==> '0' <= c <= '9'
  }

  /** The number that decimal digits denote. */
  function Decimal(s: string): int {
    if s == "" then 0 else 10 * Decimal(s[..|s| - 1]) + (s[|s| - 1] as int - '0' as int)
  }

  /** The number that a decimal text denotes. */
  function Value(s: string): int {
    if s != "" && s[0] == '-' then -Decimal(s[1..]) else Decimal(s)
  }

  lemma {:induction false} ItoaDigits(n: nat)
    ensures Decimal(Itoa(n)) == n && AllDigits(Itoa(n)) && (n > 0 ==> Itoa(n)[0] != '0')
  {
    if n < 10 {
      assert Itoa(n)[..0] == "";
    } else {
      ItoaDigits(n / 10);
      var rest := Itoa(n / 10);
      assert Itoa(n)[..|rest|] == rest && Itoa(n)[0] == rest[0];
    }
  }

  /** The decimal text denotes its number, without leading zeros. */
  lemma ItoaDenotes(n: int)
    ensures Value(Itoa(n)) == n && (n < 0 <==> Itoa(n)[0] == '-') && (n > 0 ==> Itoa(n)[0] != '0')
  {
    if n < 0 {
      ItoaDigits(-n);
      assert Itoa(n)[1..] == Itoa(-n);
    } else {
      ItoaDigits(n);
      assert Itoa(n)[0] in Itoa(n);
    }
  }
}

/** Spreading the per-guest reads of a full sweep over several samples. */
module GuestSweep {
  import opened Common

  datatype Resource = Resource(node: string, kind: string, vmid: int, template: int)

  predicate Candidate(r: Resource) {
    r.template == 0 && (r.kind == "qemu" || r.kind == "lxc")
  }

  // -------------------------------------------------------------------- Ordering

  /** Lexicographic order of texts. */
  predicate Before(a: string, b: string) {
    b != "" && (a == "" || a[0] < b[0] || (a[0] == b[0] && Before(a[1..], b[1..])))
  }

  lemma {:induction false} BeforeTotal(a: string, b: string)
    ensures a == b || Before(a, b) || Before(b, a)
  {
    if a != "" && b != "" && a[0] == b[0] {
      BeforeTotal(a[1..], b[1..]);
      assert a == [a[0]] + a[1..] && b == [b[0]] + b[1..];
    }
  }

  lemma {:induction false} BeforeStrict(a: string, b: string)
    ensures Before(a, b) ==> !Before(b, a) && a != b
  {
    if a != "" && b != "" && a[0] == b[0] {
      BeforeStrict(a[1..], b[1..]);
    }
  }

  lemma {:induction false} BeforeTransitive(a: string, b: string, c: string)
    requires Before(a, b) && Before(b, c)
    ensures Before(a, c)
  {
    if a != "" && a[0] == b[0] && b[0] == c[0] {
      BeforeTransitive(a[1..], b[1..], c[1..]);
    }
  }

  /** The comparison the candidates are sorted by. */
  predicate Less(a: Resource, b: Resource) {
    if a.node != b.node then Before(a.node, b.node)
    else if a.kind != b.kind then Before(a.kind, b.kind)
    else a.vmid < b.vmid
  }

  predicate SameKey(a: Resource, b: Resource) {
    a.node == b.node && a.kind == b.kind && a.vmid == b.vmid
  }

  lemma LessTotal(a: Resource, b: Resource)
    ensures SameKey(a, b) || Less(a, b) || Less(b, a)
    ensures Less(a, b) ==> !Less(b, a) && !SameKey(a, b)
  {
    BeforeTotal(a.node, b.node);
    BeforeStrict(a.node, b.node);
    BeforeTotal(a.kind, b.kind);
    BeforeStrict(a.kind, b.kind);
  }

  lemma LessTransitive(a: Resource, b: Resource, c: Resource)
    requires !Less(b, a) && !Less(c, b)
    ensures !Less(c, a)
  {
    LessTotal(a, b);
    LessTotal(b, c);
    LessTotal(a, c);
    if Less(a, b) && Less(b, c) {
      LessChain(a, b, c);
    }
  }

  lemma LessChain(a: Resource, b: Resource, c: Resource)
    requires Less(a, b) && Less(b, c)
    ensures Less(a, c)
  {
    if a.node != b.node && b.node != c.node {
      BeforeTransitive(a.node, b.node, c.node);
      BeforeStrict(a.node, b.node);
    } else if a.node == b.node == c.node && a.kind != b.kind && b.kind != c.kind {
      BeforeTransitive(a.kind, b.kind, c.kind);
      BeforeStrict(a.kind, b.kind);
    }
    BeforeStrict(a.node, c.node);
    BeforeStrict(a.kind, c.kind);
  }

  predicate Sorted(s: seq<Resource>) {
    forall i, j :: 0 <= i < j < |s| ==> !Less(s[j], s[i])
  }

  /** Guests with the same node, type and number are the same guest. */
  ghost predicate KeysIdentify(m: multiset<Resource>) {
    forall x, y :: x in m && y in m && SameKey(x, y) ==> x == y
  }

  /** No two listed guests share node, type and number. */
  ghost predicate DistinctKeys(m: multiset<Resource>) {
    KeysIdentify(m) && forall x :: x in m ==> m[x] == 1
  }

  function Insert(s: seq<Resource>, r: Resource): (t: seq<Resource>)
    ensures multiset(t) == multiset(s) + multiset{r}
  {
    if s == [] then [r]
    else if Less(r, s[0]) then [r] + s
    else assert s == [s[0]] + s[1..]; [s[0]] + Insert(s[1..], r)
  }

  lemma {:induction false} InsertMembers(s: seq<Resource>, r: Resource)
    ensures forall x :: x in Insert(s, r) <==> x in s || x == r
  {
    forall x ensures x in Insert(s, r) <==> x in s || x == r {
      assert x in Insert(s, r) <==> x in multiset(Insert(s, r));
      assert x in s <==> x in multiset(s);
    }
  }

  lemma SortedCons(r: Resource, s: seq<Resource>)
    requires Sorted(s) && forall x :: x in s ==> !Less(x, r)
    ensures Sorted([r] + s)
  {
    var t := [r] + s;
    forall i, j | 0 <= i < j < |t| ensures !Less(t[j], t[i]) {
      assert t[j] == s[j - 1];
      assert s[j - 1] in s;
    }
  }

  lemma {:induction false} InsertSorts(s: seq<Resource>, r: Resource)
    requires Sorted(s)
    ensures Sorted(Insert(s, r))
  {
    if s == [] {
    } else if Less(r, s[0]) {
      forall x | x in s ensures !Less(x, r) {
        LessTotal(r, s[0]);
        LessTransitive(r, s[0], x);
      }
      SortedCons(r, s);
    } else {
      InsertSorts(s[1..], r);
      InsertMembers(s[1..], r);
      SortedCons(s[0], Insert(s[1..], r));
    }
  }

  /** Sort the candidates; any sorting method gives the same result, by `SortedUnique`. */
  method SortByKey(s: seq<Resource>) returns (t: seq<Resource>)
    ensures Sorted(t) && multiset(t) == multiset(s)
  {
    t := [];
    for i := 0 to |s|
      invariant Sorted(t) && multiset(t) == multiset(s[..i])
    {
      InsertSorts(t, s[i]);
      t := Insert(t, s[i]);
      assert s[..i + 1] == s[..i] + [s[i]];
    }
    assert s[..|s|] == s;
  }

  lemma SameHead(a: seq<Resource>, b: seq<Resource>)
    requires Sorted(a) && Sorted(b) && KeysIdentify(multiset(a)) && a != [] && b != []
    requires a[0] in b && b[0] in multiset(a)
    ensures a[0] == b[0]
  {
    var i :| 0 <= i < |b| && b[i] == a[0];
    var j :| 0 <= j < |a| && a[j] == b[0];
    LessTotal(a[0], b[0]);
  }

  lemma TailMultiset(a: seq<Resource>)
    requires a != []
    ensures multiset(a[1..]) == multiset(a) - multiset{a[0]}
  {
    assert a == [a[0]] + a[1..];
  }

  lemma TailIdentifies(a: seq<Resource>)
    requires a != [] && KeysIdentify(multiset(a))
    ensures KeysIdentify(multiset(a[1..]))
  {
    TailMultiset(a);
    forall x | x in multiset(a[1..]) ensures x in multiset(a) {
    }
  }

  /** With distinct keys there is only one sorted order. */
  lemma {:induction false} SortedUnique(a: seq<Resource>, b: seq<Resource>)
    requires Sorted(a) && Sorted(b) && multiset(a) == multiset(b) && KeysIdentify(multiset(a))
    ensures a == b
  {
    assert |multiset(a)| == |a| && |multiset(b)| == |b|;
    if a != [] {
      assert a[0] in multiset(b) && b[0] in multiset(a);
      SameHead(a, b);
      TailMultiset(a);
      TailMultiset(b);
      TailIdentifies(a);
      SortedUnique(a[1..], b[1..]);
      assert a == [a[0]] + a[1..] && b == [b[0]] + b[1..];
    }
  }

  // ------------------------------------------------------------------- Filtering

  function Candidates(s: seq<Resource>): seq<Resource> {
    if s == [] then []
    else
      var before := Candidates(s[..|s| - 1]);
      if Candidate(s[|s| - 1]) then before + [s[|s| - 1]] else before
  }

  lemma {:induction false} CandidatesCount(s: seq<Resource>, x: Resource)
    ensures multiset(Candidates(s))[x] == if Candidate(x) then multiset(s)[x] else 0
  {
    if s != [] {
      var n := |s| - 1;
      CandidatesCount(s[..n], x);
      assert s == s[..n] + [s[n]];
    }
  }

  /** Listing the same resources in another order selects the same candidates. */
  lemma CandidatesPermute(a: seq<Resource>, b: seq<Resource>)
    requires multiset(a) == multiset(b)
    ensures multiset(Candidates(a)) == multiset(Candidates(b))
  {
    forall x ensures multiset(Candidates(a))[x] == multiset(Candidates(b))[x] {
      CandidatesCount(a, x);
      CandidatesCount(b, x);
    }
  }

  method Select(resources: seq<Resource>) returns (candidates: seq<Resource>)
    ensures candidates == Candidates(resources)
  {
    candidates := [];
    for i := 0 to |resources|
      invariant candidates == Candidates(resources[..i])
    {
      assert resources[..i + 1][..i] == resources[..i];
      if Candidate(resources[i]) {
        candidates := candidates + [resources[i]];
      }
    }
    assert resources[..|resources|] == resources;
  }

  // -------------------------------------------------------------------- Batching

  /** How many samples make up a sweep: the quotient rounded up, at least one. */
  function Cycles(sample: int, sweep: int): (c: int)
    requires sample > 0
    ensures c >= 1 && c * sample >= sweep
    ensures c > 1 ==> (c - 1) * sample < sweep
  {
    if sweep + sample - 1 < sample then 1 else (sweep + sample - 1) / sample
  }

  /** How many guests one sample reads: the quotient rounded up. */
  function Size(n: nat, cycles: int): (b: int)
    requires n > 0 && cycles >= 1
    ensures 1 <= b <= n && b * cycles >= n && (b - 1) * cycles < n
  {
    var b := (n + cycles - 1) / cycles;
    QuotientUp(n, cycles);
    b
  }

  lemma Scale(a: int, b: int, d: int)
    requires a <= b && d >= 0
    ensures a * d <= b * d
  {
  }

  lemma QuotientUp(n: nat, d: int)
    requires n > 0 && d >= 1
    ensures var q := (n + d - 1) / d; 1 <= q <= n && q * d >= n && (q - 1) * d < n
  {
    var q, r := (n + d - 1) / d, (n + d - 1) % d;
    assert n + d - 1 == q * d + r && 0 <= r < d;
    assert (q - 1) * d == q * d - d;
    if q < 1 {
      Scale(q, 0, d);
      assert false;
    }
    if q > n {
      Scale(n, q - 1, d);
      Scale(1, d, n);
      assert false;
    }
  }

  lemma ModUnique(x: int, n: int, q: int, r: int)
    requires n > 0 && x == q * n + r && 0 <= r < n
    ensures x % n == r && x / n == q
  {
    var d := x / n - q;
    assert d * n == (x / n) * n - q * n;
    if d >= 1 {
      Scale(1, d, n);
      assert false;
    }
    if d <= -1 {
      Scale(d, -1, n);
      assert false;
    }
  }

  lemma ModAdd(a: int, b: int, n: int)
    requires n > 0
    ensures (a % n + b) % n == (a + b) % n
  {
    var q := (a % n + b) / n;
    assert a == (a / n) * n + a % n && a % n + b == q * n + (a % n + b) % n;
    assert (a / n + q) * n == (a / n) * n + q * n;
    ModUnique(a + b, n, a / n + q, (a % n + b) % n);
  }

  /** The guests one sample reads, from the cursor on and around the end. */
  function Batch(c: seq<Resource>, cursor: int, size: int): (b: seq<Resource>)
    requires 0 <= cursor < |c| && size >= 0
    ensures |b| == size && forall o :: 0 <= o < size ==> b[o] == c[(cursor + o) % |c|]
  {
    seq(size, o requires 0 <= o < size => c[(cursor + o) % |c|])
  }

  /** The cursor after a number of samples. */
  function CursorAfter(n: nat, cursor: int, size: int, samples: nat): (c: int)
    requires 0 <= cursor < n
    ensures 0 <= c < n
  {
    if samples == 0 then cursor else (CursorAfter(n, cursor, size, samples - 1) + size) % n
  }

  /** The cursor as if the list had no end. */
  function Moved(cursor: int, size: int, samples: nat): int {
    if samples == 0 then cursor else Moved(cursor, size, samples - 1) + size
  }

  lemma {:induction false} MovedIs(cursor: int, size: int, samples: nat)
    ensures Moved(cursor, size, samples) == cursor + samples * size
  {
    if samples > 0 {
      MovedIs(cursor, size, samples - 1);
      assert samples * size == (samples - 1) * size + size;
    }
  }

  lemma {:induction false} CursorMoves(n: nat, cursor: int, size: int, samples: nat)
    requires 0 <= cursor < n
    ensures CursorAfter(n, cursor, size, samples) == Moved(cursor, size, samples) % n
  {
    if samples == 0 {
      ModSmall(cursor, n);
    } else {
      CursorMoves(n, cursor, size, samples - 1);
      ModStep(Moved(cursor, size, samples - 1), CursorAfter(n, cursor, size, samples - 1), size, n);
    }
  }

  lemma ModSmall(x: int, n: int)
    requires 0 <= x < n
    ensures x % n == x
  {
  }

  lemma ModStep(moved: int, cursor: int, size: int, n: int)
    requires n > 0 && cursor == moved % n
    ensures (cursor + size) % n == (moved + size) % n
  {
    ModAdd(moved, size, n);
  }

  lemma RoundOf(j: nat, size: int, cycles: int)
    requires 1 <= size && j < size * cycles
    ensures 0 <= j / size < cycles && 0 <= j % size < size && j == (j / size) * size + j % size
  {
    var k := j / size;
    assert j == k * size + j % size;
    if k >= cycles {
      Scale(cycles, k, size);
      assert false;
    }
    if k < 0 {
      Scale(k, -1, size);
      assert false;
    }
  }

  /** Where the guest at index `i` comes up in a sweep that starts at the cursor. */
  lemma SlotReached(n: nat, cursor: int, size: int, cycles: int, i: nat) returns (k: nat, o: nat)
    requires 0 <= cursor < n && 1 <= size && size * cycles >= n && i < n
    ensures k < cycles && o < size && (CursorAfter(n, cursor, size, k) + o) % n == i
  {
    var j := if i >= cursor then i - cursor else i - cursor + n;
    RoundOf(j, size, cycles);
    k, o := j / size, j % size;
    MovedIs(cursor, size, k);
    CursorMoves(n, cursor, size, k);
    ModAdd(Moved(cursor, size, k), o, n);
    ModUnique(cursor + j, n, if i >= cursor then 0 else 1, i);
  }

  /** A sweep's samples, from any cursor, read every candidate. */
  lemma Coverage(c: seq<Resource>, cursor: int, cycles: int, r: Resource)
    requires 0 <= cursor < |c| && cycles >= 1 && r in c
    ensures var size := Size(|c|, cycles);
            exists k: nat :: k < cycles && r in Batch(c, CursorAfter(|c|, cursor, size, k), size)
  {
    var size := Size(|c|, cycles);
    var i :| 0 <= i < |c| && c[i] == r;
    var k, o := SlotReached(|c|, cursor, size, cycles, i);
    var b := Batch(c, CursorAfter(|c|, cursor, size, k), size);
    assert b[o] == r;
  }

  lemma SlotsDiffer(n: nat, cursor: int, a: int, b: int)
    requires 0 <= cursor < n && 0 <= a < b < n
    ensures (cursor + a) % n != (cursor + b) % n
  {
    ModUnique(cursor + a, n, if cursor + a < n then 0 else 1, if cursor + a < n then cursor + a else cursor + a - n);
    ModUnique(cursor + b, n, if cursor + b < n then 0 else 1, if cursor + b < n then cursor + b else cursor + b - n);
  }

  lemma OnceEach(c: seq<Resource>, i: int, j: int)
    requires 0 <= i < |c| && 0 <= j < |c| && i != j && multiset(c)[c[i]] == 1
    ensures c[i] != c[j]
  {
    var k, l := if i < j then i else j, if i < j then j else i;
    assert c == c[..l] + [c[l]] + c[l + 1..];
    assert c[k] in c[..l];
  }

  /** No sample reads a guest twice. */
  lemma NoRepeat(c: seq<Resource>, cursor: int, size: int, a: int, b: int)
    requires 0 <= cursor < |c| && 0 <= a < b < size <= |c| && DistinctKeys(multiset(c))
    ensures Batch(c, cursor, size)[a] != Batch(c, cursor, size)[b]
  {
    SlotsDiffer(|c|, cursor, a, b);
    assert c[(cursor + a) % |c|] in multiset(c);
    OnceEach(c, (cursor + a) % |c|, (cursor + b) % |c|);
  }

  /** A cursor that no longer fits starts again. */
  function Start(n: nat, cursor: int): int {
    if cursor < 0 || cursor >= n then 0 else cursor
  }

  /** One sample: the candidates in key order, from the cursor on. */
  method GuestDetailBatch(resources: seq<Resource>, sample: int, sweep: int, cursor: int)
    returns (batch: seq<Resource>, next: int, ghost sorted: seq<Resource>)
    requires sample > 0
    ensures Sorted(sorted) && multiset(sorted) == multiset(Candidates(resources))
    ensures sorted == [] ==> batch == [] && next == 0
    ensures DistinctKeys(multiset(sorted)) ==> forall a, b :: 0 <= a < b < |batch| ==> batch[a] != batch[b]
    ensures sorted != [] ==>
              var n, size := |sorted|, Size(|sorted|, Cycles(sample, sweep));
              batch == Batch(sorted, Start(n, cursor), size) && next == (Start(n, cursor) + size) % n
    ensures sorted != [] ==> batch != [] && batch[0] == sorted[if 0 <= cursor < |sorted| then cursor else 0]
  {
    var selected := Select(resources);
    var candidates := SortByKey(selected);
    sorted := candidates;
    if candidates == [] {
      return [], 0, sorted;
    }
    var n := |candidates|;
    var from, size := Start(n, cursor), Size(n, Cycles(sample, sweep));
    batch := [];
    for o := 0 to size
      invariant batch == Batch(candidates, from, o)
    {
      batch := batch + [candidates[(from + o) % n]];
    }
    next := (from + |batch|) % n;
    ModUnique(from, n, 0, from);
    if DistinctKeys(multiset(sorted)) {
      forall a, b | 0 <= a < b < |batch| ensures batch[a] != batch[b] {
        NoRepeat(sorted, from, size, a, b);
      }
    }
  }

  /** A whole sweep over one fixed guest set, which PVE may list in a different order
      every time: exactly the candidates are read. */
  method FullSweep(listings: seq<seq<Resource>>, sample: int, sweep: int, cursor: int) returns (visited: set<Resource>)
    requires sample > 0 && |listings| == Cycles(sample, sweep)
    requires DistinctKeys(multiset(Candidates(listings[0])))
    requires forall l :: l in listings ==> multiset(l) == multiset(listings[0])
    ensures visited == set r | r in listings[0] && r.template == 0 && (r.kind == "qemu" || r.kind == "lxc")
  {
    ghost var c := Reference(listings[0]);
    forall k | 0 <= k < |listings| ensures OrderOf(listings[k], c) {
      assert listings[k] in listings;
      CandidatesPermute(listings[0], listings[k]);
    }
    var at;
    visited, at := SweepAll(listings, sample, sweep, cursor, c);
    SweptAll(c, cursor, |listings|, at, visited, listings[0]);
  }

  /** These are the candidates of the listing, in key order. */
  ghost predicate OrderOf(listing: seq<Resource>, c: seq<Resource>) {
    Sorted(c) && multiset(c) == multiset(Candidates(listing)) && DistinctKeys(multiset(c))
  }

  method SweepAll(listings: seq<seq<Resource>>, sample: int, sweep: int, cursor: int, ghost c: seq<Resource>)
    returns (visited: set<Resource>, at: int)
    requires sample > 0 && |listings| == Cycles(sample, sweep)
    requires forall k :: 0 <= k < |listings| ==> OrderOf(listings[k], c)
    ensures Swept(c, cursor, |listings|, |listings|, at, visited)
  {
    visited, at := {}, cursor;
    for k := 0 to |listings|
      invariant Swept(c, cursor, |listings|, k, at, visited)
    {
      var batch, next := SampleOf(listings[k], sample, sweep, at, c);
      SweptOnce(c, cursor, |listings|, k, at, visited, batch, next);
      visited, at := visited + Members(batch), next;
    }
  }

  lemma SweptAll(c: seq<Resource>, cursor: int, cycles: int, at: int, visited: set<Resource>, listing: seq<Resource>)
    requires cycles >= 1 && Swept(c, cursor, cycles, cycles, at, visited) && multiset(c) == multiset(Candidates(listing))
    ensures visited == set r | r in listing && r.template == 0 && (r.kind == "qemu" || r.kind == "lxc")
  {
    MembersOf(c, Candidates(listing));
    assert Members(c) == Members(Candidates(listing));
    if c != [] {
      VisitedAll(c, Start(|c|, cursor), cycles);
    }
    SelectedExactly(listing);
  }

  /** The candidates are the guests that are no templates. */
  lemma {:induction false} SelectedExactly(s: seq<Resource>)
    ensures Members(Candidates(s)) == set r | r in s && r.template == 0 && (r.kind == "qemu" || r.kind == "lxc")
  {
    if s != [] {
      var n := |s| - 1;
      SelectedExactly(s[..n]);
      assert s == s[..n] + [s[n]];
      var before := Candidates(s[..n]);
      assert Members(before + [s[n]]) == Members(before) + {s[n]};
    }
  }

  /** In a sorted list, node decides first, then type, then number. */
  lemma SortedMeans(s: seq<Resource>, i: nat, j: nat)
    requires Sorted(s) && i < j < |s|
    ensures s[i].node == s[j].node || Before(s[i].node, s[j].node)
    ensures s[i].node == s[j].node ==> s[i].kind == s[j].kind || Before(s[i].kind, s[j].kind)
    ensures s[i].node == s[j].node && s[i].kind == s[j].kind ==> s[i].vmid <= s[j].vmid
  {
    BeforeTotal(s[i].node, s[j].node);
    BeforeTotal(s[i].kind, s[j].kind);
  }

  /** One text is before another exactly when it is a proper prefix or smaller at the
      first difference. */
  lemma {:induction false} BeforeMeans(a: string, b: string, i: nat)
    requires i <= |a| && i <= |b| && a[..i] == b[..i]
    ensures i == |a| < |b| ==> Before(a, b)
    ensures i < |a| && i < |b| && a[i] < b[i] ==> Before(a, b)
  {
    if i > 0 {
      assert a[0] == a[..i][0] == b[..i][0] == b[0];
      assert a[1..][..i - 1] == a[..i][1..] && b[1..][..i - 1] == b[..i][1..];
      BeforeMeans(a[1..], b[1..], i - 1);
    }
  }

  /** Where a sweep stands after some of its samples. */
  ghost predicate Swept(c: seq<Resource>, cursor: int, cycles: int, samples: nat, at: int, visited: set<Resource>)
    requires cycles >= 1
  {
    if c == [] then visited == {}
    else
      var n, size := |c|, Size(|c|, cycles);
      && Start(n, at) == CursorAfter(n, Start(n, cursor), size, samples)
      && visited == Visited(c, Start(n, cursor), size, samples)
  }

  lemma SweptOnce(c: seq<Resource>, cursor: int, cycles: int, samples: nat, at: int, visited: set<Resource>,
                  batch: seq<Resource>, next: int)
    requires cycles >= 1 && Swept(c, cursor, cycles, samples, at, visited)
    requires c == [] ==> batch == []
    requires c != [] ==> batch == Batch(c, Start(|c|, at), Size(|c|, cycles))
                         && next == (Start(|c|, at) + Size(|c|, cycles)) % |c|
    ensures Swept(c, cursor, cycles, samples + 1, next, visited + Members(batch))
  {
    if c != [] {
      var from, size := Start(|c|, cursor), Size(|c|, cycles);
      assert next == CursorAfter(|c|, from, size, samples + 1);
    }
  }

  /** One sample of a listing whose candidates in key order are known. */
  method SampleOf(listing: seq<Resource>, sample: int, sweep: int, cursor: int, ghost c: seq<Resource>)
    returns (batch: seq<Resource>, next: int)
    requires sample > 0 && OrderOf(listing, c)
    ensures c == [] ==> batch == [] && next == 0
    ensures c != [] ==>
              var n, size := |c|, Size(|c|, Cycles(sample, sweep));
              batch == Batch(c, Start(n, cursor), size) && next == (Start(n, cursor) + size) % n
  {
    ghost var sorted;
    batch, next, sorted := GuestDetailBatch(listing, sample, sweep, cursor);
    SortedUnique(c, sorted);
  }

  /** What a number of samples has read. */
  ghost function Visited(c: seq<Resource>, cursor: int, size: int, samples: nat): set<Resource>
    requires 0 <= cursor < |c| && size >= 0
  {
    if samples == 0 then {}
    else Visited(c, cursor, size, samples - 1) + Members(Batch(c, CursorAfter(|c|, cursor, size, samples - 1), size))
  }

  lemma {:induction false} VisitedHas(c: seq<Resource>, cursor: int, size: int, samples: nat, k: nat, r: Resource)
    requires 0 <= cursor < |c| && size >= 0 && k < samples
    requires r in Batch(c, CursorAfter(|c|, cursor, size, k), size)
    ensures r in Visited(c, cursor, size, samples)
  {
    if k < samples - 1 {
      VisitedHas(c, cursor, size, samples - 1, k, r);
    }
  }

  lemma {:induction false} VisitedWithin(c: seq<Resource>, cursor: int, size: int, samples: nat)
    requires 0 <= cursor < |c| && size >= 0
    ensures forall r :: r in Visited(c, cursor, size, samples) ==> r in c
  {
    if samples > 0 {
      VisitedWithin(c, cursor, size, samples - 1);
    }
  }

  lemma VisitedAll(c: seq<Resource>, cursor: int, cycles: int)
    requires 0 <= cursor < |c| && cycles >= 1
    ensures Visited(c, cursor, Size(|c|, cycles), cycles) == Members(c)
  {
    var size := Size(|c|, cycles);
    VisitedWithin(c, cursor, size, cycles);
    forall r | r in c ensures r in Visited(c, cursor, size, cycles) {
      Coverage(c, cursor, cycles, r);
      var k: nat :| k < cycles && r in Batch(c, CursorAfter(|c|, cursor, size, k), size);
      VisitedHas(c, cursor, size, cycles, k, r);
    }
  }

  lemma MembersOf(a: seq<Resource>, b: seq<Resource>)
    requires multiset(a) == multiset(b)
    ensures forall r :: r in a <==> r in b
  {
    forall r ensures r in a <==> r in b {
      assert r in a <==> r in multiset(a);
      assert r in b <==> r in multiset(b);
    }
  }

  /** The candidates in key order. */
  ghost function Reference(resources: seq<Resource>): (c: seq<Resource>)
    ensures Sorted(c) && multiset(c) == multiset(Candidates(resources))
  {
    InsertAll(Candidates(resources))
  }

  function InsertAll(s: seq<Resource>): (t: seq<Resource>)
    ensures Sorted(t) && multiset(t) == multiset(s)
  {
    if s == [] then []
    else
      var before := InsertAll(s[..|s| - 1]);
      InsertSorts(before, s[|s| - 1]);
      assert s == s[..|s| - 1] + [s[|s| - 1]];
      Insert(before, s[|s| - 1])
  }
}

/**
 src/alerts/engine.js, the containers: the stable priority queue and the deduplicator with its
 32-bit hash.
 */
module AlertQueue {
  import opened JsCollections

  /** A UTF-16 code unit. */
  type CodeUnit = c: int | 0 <= c < 0x1_0000 witness 0

  /** `key` is the text `type:message:metadata` that identifies repeats of an alert. */
  datatype Alert = Alert(key: seq<CodeUnit>, priority: string)

  // ---------- Priority queue ----------

  /** `ticket` stands for the enqueue timestamp, made strict: it numbers the enqueue calls. */
  datatype Item = Item(alert: Alert, priority: int, ticket: nat)

  function Insert(items: seq<Item>, e: Item): (r: seq<Item>)
    ensures |r| == |items| + 1
  {
    if items == [] then [e]
    else if e.priority < items[0].priority then [e] + items
    else [items[0]] + Insert(items[1..], e)
  }

  lemma {:induction false} InsertContents(items: seq<Item>, e: Item)
    ensures multiset(Insert(items, e)) == multiset(items) + multiset{e}
  {
    if items != [] && e.priority >= items[0].priority {
      InsertContents(items[1..], e);
      assert items == [items[0]] + items[1..];
    }
  }

  lemma {:induction false} InsertAt(items: seq<Item>, e: Item, i: nat)
    requires i <= |items|
    requires forall j :: 0 <= j < i ==> items[j].priority <= e.priority
    requires i < |items| ==> e.priority < items[i].priority
    ensures Insert(items, e) == items[..i] + [e] + items[i..]
  {
    if i > 0 {
      var rest := items[1..];
      InsertAt(rest, e, i - 1);
      assert rest[i - 1..] == items[i..];
      assert [items[0]] + rest[..i - 1] == items[..i];
      calc {
        Insert(items, e);
        [items[0]] + (rest[..i - 1] + [e] + rest[i - 1..]);
        [items[0]] + rest[..i - 1] + [e] + rest[i - 1..];
      }
    }
  }

  class PriorityQueue {
    var items: seq<Item>

    constructor ()
      ensures items == []
    {
      items := [];
    }

    method Enqueue(alert: Alert, priority: int, ticket: nat)
      modifies this
      ensures items == Insert(old(items), Item(alert, priority, ticket))
    {
      var element := Item(alert, priority, ticket);
      var i := 0;
      while i < |items|
        invariant 0 <= i <= |items| && items == old(items)
        invariant forall j :: 0 <= j < i ==> items[j].priority <= element.priority
      {
        if element.priority < items[i].priority {
          InsertAt(items, element, i);
          items := items[..i] + [element] + items[i..];
          return;
        }
        i := i + 1;
      }
      InsertAt(items, element, i);
      items := items + [element];
    }

    /** Several calls of dequeue(), as processBatch makes them. */
    method DequeueUpTo(n: int) returns (batch: seq<Item>)
      modifies this
      ensures var k := Max(0, Min(n, |old(items)|));
        batch == old(items)[..k] && items == old(items)[k..]
    {
      batch := [];
      var size := Min(n, |items|);
      var i := 0;
      while i < size
        invariant 0 <= i <= Max(0, size)
        invariant i <= |old(items)| && batch == old(items)[..i] && items == old(items)[i..]
      {
        batch := batch + [items[0]];
        items := items[1..];
        i := i + 1;
      }
    }

    method Clear() returns (size: nat)
      modifies this
      ensures items == [] && size == |old(items)|
    {
      size := |items|;
      items := [];
    }
  }

  ghost predicate Before(a: Item, b: Item) {
    a.priority < b.priority || (a.priority == b.priority && a.ticket < b.ticket)
  }

  ghost predicate InOrder(items: seq<Item>) {
    forall i, j :: 0 <= i < j < |items| ==> Before(items[i], items[j])
  }

  /** A newcomer goes behind its equals and before everything less urgent. */
  lemma {:induction false} InsertKeepsOrder(items: seq<Item>, e: Item)
    requires InOrder(items)
    requires forall i :: 0 <= i < |items| ==> items[i].ticket < e.ticket
    ensures InOrder(Insert(items, e))
  {
    if items != [] && e.priority >= items[0].priority {
      var rest := Insert(items[1..], e);
      InsertKeepsOrder(items[1..], e);
      InsertContents(items[1..], e);
      forall j | 0 <= j < |rest| ensures Before(items[0], rest[j]) {
        assert rest[j] in multiset(rest);
        if rest[j] != e {
          assert rest[j] in multiset(items[1..]);
          assert rest[j] in items[1..];
        }
      }
    }
  }

  // ---------- Hash ----------

  const TWO32: int := 0x1_0000_0000

  /** The ToInt32 conversion applied by << and &. */
  function ToInt32(x: int): (r: int)
    ensures -0x8000_0000 <= r < 0x8000_0000
  {
    var m := x % TWO32;
    if m >= 0x8000_0000 then m - TWO32 else m
  }

  lemma ToInt32Offset(x: int) returns (k: int)
    ensures x == ToInt32(x) + k * TWO32
  {
    k := if x % TWO32 >= 0x8000_0000 then x / TWO32 + 1 else x / TWO32;
  }

  lemma ToInt32Periodic(x: int, k: int)
    ensures ToInt32(x + k * TWO32) == ToInt32(x)
  {
    assert (x + k * TWO32) % TWO32 == x % TWO32;
  }

  /** The exact value that the wrapping loop approximates: digits in base 31. */
  function Polynomial(s: seq<CodeUnit>): int {
    if s == [] then 0 else 31 * Polynomial(s[..|s| - 1]) + s[|s| - 1]
  }

  lemma HashStep(hash: int, exact: int, c: int)
    requires hash == ToInt32(exact)
    ensures ToInt32(ToInt32(hash * 32) - hash + c) == ToInt32(31 * exact + c)
  {
    var k := ToInt32Offset(exact);
    var j := ToInt32Offset(hash * 32);
    ToInt32Periodic(ToInt32(hash * 32) - hash + c, j + 31 * k);
  }

  method HashCode(str: seq<CodeUnit>) returns (hash: int)
    ensures hash == ToInt32(Polynomial(str))
  {
    hash := 0;
    for i := 0 to |str|
      invariant hash == ToInt32(Polynomial(str[..i]))
    {
      assert str[..i + 1][..i] == str[..i];
      HashStep(hash, Polynomial(str[..i]), str[i]);
      hash := ToInt32(ToInt32(hash * 32) - hash + str[i]);
    }
    assert str[..|str|] == str;
  }

  /** The text hash.toString(16), which determines the number. */
  datatype Fingerprint = Hex(hash: int)

  function GetFingerprint(alert: Alert): Fingerprint { Hex(ToInt32(Polynomial(alert.key))) }

  // ---------- Deduplicator ----------

  /** The three clock reads of isDuplicate: in cleanup(), in the test, and for the new entry. */
  datatype Reads = Reads(cleanup: int, check: int, record: int)

  function Cleaned(seen: map<Fingerprint, int>, now: int, windowMs: int): map<Fingerprint, int> {
    map f | f in seen && !(now - seen[f] > windowMs) :: seen[f]
  }

  /** `lastSeen && now - lastSeen < windowMs`: a stored time of 0 is falsy. */
  predicate Recent(seen: map<Fingerprint, int>, f: Fingerprint, now: int, windowMs: int) {
    f in seen && seen[f] != 0 && now - seen[f] < windowMs
  }

  function DedupStep(seen: map<Fingerprint, int>, f: Fingerprint, windowMs: int, t: Reads)
    : (map<Fingerprint, int>, bool)
  {
    var kept := Cleaned(seen, t.cleanup, windowMs);
    if Recent(kept, f, t.check, windowMs) then (kept, true) else (kept[f := t.record], false)
  }

  /** The loop over `seen.entries()` that deletes as it goes. */
  method RemoveExpired(seen: map<Fingerprint, int>, now: int, windowMs: int) returns (kept: map<Fingerprint, int>)
    ensures kept == Cleaned(seen, now, windowMs)
  {
    kept := seen;
    var todo := seen.Keys;
    while todo != {}
      invariant todo <= seen.Keys
      invariant kept.Keys == todo + Cleaned(seen, now, windowMs).Keys
      invariant forall f :: f in kept ==> kept[f] == seen[f]
      decreases |todo|
    {
      var f :| f in todo;
      todo := todo - {f};
      if now - seen[f] > windowMs {
        kept := kept - {f};
      }
    }
  }

  class Deduplicator {
    const windowMs: int
    var seen: map<Fingerprint, int>

    constructor (windowMs: int)
      ensures this.windowMs == windowMs && seen == map[]
    {
      this.windowMs, seen := windowMs, map[];
    }

    method Cleanup(now: int)
      modifies this
      ensures seen == Cleaned(old(seen), now, windowMs)
    {
      seen := RemoveExpired(seen, now, windowMs);
    }

    method IsDuplicate(alert: Alert, t: Reads) returns (duplicate: bool)
      modifies this
      ensures (seen, duplicate) == DedupStep(old(seen), GetFingerprint(alert), windowMs, t)
    {
      Cleanup(t.cleanup);
      var hash := HashCode(alert.key);
      var fingerprint := Hex(hash);
      if fingerprint in seen {
        var lastSeen := seen[fingerprint];
        if lastSeen != 0 && t.check - lastSeen < windowMs {
          return true;
        }
      }
      seen := seen[fingerprint := t.record];
      return false;
    }
  }

  datatype Check = Check(fingerprint: Fingerprint, t: Reads)

  ghost predicate ClockOk(checks: seq<Check>) {
    && (forall i :: 0 <= i < |checks| ==> checks[i].t.cleanup <= checks[i].t.check <= checks[i].t.record)
    && (forall i, j :: 0 <= i < j < |checks| ==> checks[i].t.record <= checks[j].t.cleanup)
  }

  function DedupRun(windowMs: int, checks: seq<Check>): (map<Fingerprint, int>, seq<bool>) {
    if checks == [] then (map[], [])
    else
      var (seen, verdicts) := DedupRun(windowMs, checks[..|checks| - 1]);
      var c := checks[|checks| - 1];
      var (seen', duplicate) := DedupStep(seen, c.fingerprint, windowMs, c.t);
      (seen', verdicts + [duplicate])
  }

  /** The reference: remember the last accepted time of every fingerprint for ever. */
  function ReferenceRun(windowMs: int, checks: seq<Check>): (map<Fingerprint, int>, seq<bool>) {
    if checks == [] then (map[], [])
    else
      var (last, verdicts) := ReferenceRun(windowMs, checks[..|checks| - 1]);
      var c := checks[|checks| - 1];
      var duplicate := Recent(last, c.fingerprint, c.t.check, windowMs);
      (if duplicate then last else last[c.fingerprint := c.t.record], verdicts + [duplicate])
  }

  /** Cleanup forgets only what could no longer make a duplicate. */
  ghost predicate Forgets(seen: map<Fingerprint, int>, last: map<Fingerprint, int>, windowMs: int, now: int) {
    && (forall f :: f in seen ==> f in last && seen[f] == last[f])
    && (forall f :: f in last && f !in seen ==> now - last[f] > windowMs)
  }

  lemma DedupStepForgets(seen: map<Fingerprint, int>, last: map<Fingerprint, int>, windowMs: int, before: int, c: Check)
    requires Forgets(seen, last, windowMs, before)
    requires before <= c.t.cleanup <= c.t.check <= c.t.record
    ensures var (seen', duplicate) := DedupStep(seen, c.fingerprint, windowMs, c.t);
      && duplicate == Recent(last, c.fingerprint, c.t.check, windowMs)
      && Forgets(seen', if duplicate then last else last[c.fingerprint := c.t.record], windowMs, c.t.record)
  {
  }

  /** Cleanup never changes a verdict. */
  lemma {:induction false} CleanupIsInvisible(windowMs: int, checks: seq<Check>, now: int)
    requires ClockOk(checks) && (checks != [] ==> checks[|checks| - 1].t.record <= now)
    ensures DedupRun(windowMs, checks).1 == ReferenceRun(windowMs, checks).1
    ensures Forgets(DedupRun(windowMs, checks).0, ReferenceRun(windowMs, checks).0, windowMs, now)
  {
    if checks != [] {
      var init, c := checks[..|checks| - 1], checks[|checks| - 1];
      CleanupIsInvisible(windowMs, init, c.t.cleanup);
      DedupStepForgets(DedupRun(windowMs, init).0, ReferenceRun(windowMs, init).0, windowMs, c.t.cleanup, c);
    }
  }

  lemma {:induction false} ReferencePrefix(windowMs: int, checks: seq<Check>, n: nat)
    requires n <= |checks|
    ensures |ReferenceRun(windowMs, checks).1| == |checks|
    ensures ReferenceRun(windowMs, checks[..n]).1 == ReferenceRun(windowMs, checks).1[..n]
  {
    if n == |checks| {
      assert checks[..n] == checks;
      if n > 0 {
        ReferencePrefix(windowMs, checks[..n - 1], n - 1);
      }
    } else {
      ReferencePrefix(windowMs, checks[..|checks| - 1], n);
      assert checks[..|checks| - 1][..n] == checks[..n];
    }
  }

  /** Whether the i-th sighting is refused. */
  predicate Refused(windowMs: int, checks: seq<Check>, i: nat)
    requires i < |checks|
  {
    Recent(ReferenceRun(windowMs, checks[..i]).0, checks[i].fingerprint, checks[i].t.check, windowMs)
  }

  lemma VerdictAt(windowMs: int, checks: seq<Check>, i: nat)
    requires ClockOk(checks) && i < |checks|
    ensures |DedupRun(windowMs, checks).1| == |checks|
    ensures DedupRun(windowMs, checks).1[i] == Refused(windowMs, checks, i)
  {
    CleanupIsInvisible(windowMs, checks, checks[|checks| - 1].t.record);
    ReferencePrefix(windowMs, checks, i + 1);
    ReferencePrefix(windowMs, checks[..i + 1], i);
    assert checks[..i + 1][..i] == checks[..i];
    assert ReferenceRun(windowMs, checks).1[..i + 1][i] == ReferenceRun(windowMs, checks).1[i];
  }

  /** What is remembered of a fingerprint is the time of an accepted sighting, after which it was accepted no more. */
  lemma {:induction false} LastAccepted(windowMs: int, checks: seq<Check>, f: Fingerprint, n: nat) returns (k: nat)
    requires n <= |checks| && f in ReferenceRun(windowMs, checks[..n]).0
    ensures k < n && checks[k].fingerprint == f && !Refused(windowMs, checks, k)
    ensures checks[k].t.record == ReferenceRun(windowMs, checks[..n]).0[f]
    ensures forall i :: k < i < n && checks[i].fingerprint == f ==> Refused(windowMs, checks, i)
  {
    assert checks[..n][..n - 1] == checks[..n - 1];
    if checks[n - 1].fingerprint == f && !Refused(windowMs, checks, n - 1) {
      k := n - 1;
    } else {
      k := LastAccepted(windowMs, checks, f, n - 1);
    }
  }

  /** An accepted sighting is remembered, and as long as there is no later one that is accepted, exactly. */
  lemma {:induction false} Remembered(windowMs: int, checks: seq<Check>, i: nat, n: nat)
    requires i < n <= |checks| && !Refused(windowMs, checks, i)
    requires forall k :: i < k < n && checks[k].fingerprint == checks[i].fingerprint ==> Refused(windowMs, checks, k)
    ensures var last := ReferenceRun(windowMs, checks[..n]).0;
      checks[i].fingerprint in last && last[checks[i].fingerprint] == checks[i].t.record
  {
    assert checks[..n][..n - 1] == checks[..n - 1];
    if i < n - 1 {
      Remembered(windowMs, checks, i, n - 1);
    }
  }

  /** Before an accepted sighting there is a last one among the earlier accepted ones of its fingerprint. */
  lemma AcceptedBefore(windowMs: int, checks: seq<Check>, i: nat, j: nat) returns (k: nat)
    requires ClockOk(checks) && i < j < |checks| && checks[i].fingerprint == checks[j].fingerprint
    requires !Refused(windowMs, checks, i)
    ensures i <= k < j && checks[k].fingerprint == checks[j].fingerprint && !Refused(windowMs, checks, k)
    ensures checks[k].t.record >= checks[i].t.record
    ensures Refused(windowMs, checks, j)
      <==> checks[k].t.record != 0 && checks[j].t.check - checks[k].t.record < windowMs
  {
    AcceptedIsIn(windowMs, checks, i, j);
    k := LastAccepted(windowMs, checks, checks[j].fingerprint, j);
  }

  lemma {:induction false} AcceptedIsIn(windowMs: int, checks: seq<Check>, i: nat, n: nat)
    requires i < n <= |checks| && !Refused(windowMs, checks, i)
    ensures checks[i].fingerprint in ReferenceRun(windowMs, checks[..n]).0
  {
    assert checks[..n][..n - 1] == checks[..n - 1];
    if i < n - 1 {
      AcceptedIsIn(windowMs, checks, i, n - 1);
    }
  }

  /** Two accepted sightings of one fingerprint lie at least a window apart, the clock reading 1 or more. */
  lemma AcceptedSightingsAreApart(windowMs: int, checks: seq<Check>, i: nat, j: nat)
    requires ClockOk(checks) && i < j < |checks| && checks[i].fingerprint == checks[j].fingerprint
    requires |DedupRun(windowMs, checks).1| == |checks|
    requires !DedupRun(windowMs, checks).1[i] && !DedupRun(windowMs, checks).1[j]
    requires checks[i].t.record >= 1
    ensures checks[j].t.check - checks[i].t.record >= windowMs
  {
    VerdictAt(windowMs, checks, i);
    VerdictAt(windowMs, checks, j);
    var k := AcceptedBefore(windowMs, checks, i, j);
  }

  /** At clock reading 0 the stored time is taken for absent: the repeat one tick later is accepted. */
  lemma ZeroTimeIsForgotten(windowMs: int)
    requires windowMs > 1
    ensures DedupStep(map[], Hex(7), windowMs, Reads(0, 0, 0)) == (map[Hex(7) := 0], false)
    ensures !DedupStep(map[Hex(7) := 0], Hex(7), windowMs, Reads(1, 1, 1)).1
  {
  }

  /** Sighting i was accepted, and none of its fingerprint between it and j was. */
  ghost predicate LastBefore(windowMs: int, checks: seq<Check>, i: nat, j: nat)
    requires |DedupRun(windowMs, checks).1| == |checks|
  {
    && i < j < |checks| && checks[i].fingerprint == checks[j].fingerprint && !DedupRun(windowMs, checks).1[i]
    && forall k :: i < k < j && checks[k].fingerprint == checks[i].fingerprint ==> DedupRun(windowMs, checks).1[k]
  }

  /**
   In every run a repeat is caught exactly when the last accepted sighting of its fingerprint was stored at a
   time other than 0, and less than windowMs ago.
   */
  lemma RepeatIsCaught(windowMs: int, checks: seq<Check>, i: nat, j: nat)
    requires ClockOk(checks) && |DedupRun(windowMs, checks).1| == |checks| && LastBefore(windowMs, checks, i, j)
    ensures DedupRun(windowMs, checks).1[j]
      <==> checks[i].t.record != 0 && checks[j].t.check - checks[i].t.record < windowMs
  {
    forall k: nat | k <= j ensures DedupRun(windowMs, checks).1[k] == Refused(windowMs, checks, k) {
      VerdictAt(windowMs, checks, k);
    }
    Remembered(windowMs, checks, i, j);
  }

  // ---------- Exactly when accepted sightings are a window apart ----------

  /** Two sightings of one fingerprint, the second within the window of the first. */
  predicate Close(windowMs: int, checks: seq<Check>, i: int, j: int) {
    && 0 <= i < j < |checks| && checks[i].fingerprint == checks[j].fingerprint
    && checks[j].t.check - checks[i].t.record < windowMs
  }

  /** No two sightings within one window are both accepted. */
  ghost predicate Apart(windowMs: int, checks: seq<Check>)
    requires |DedupRun(windowMs, checks).1| == |checks|
  {
    forall i, j :: Close(windowMs, checks, i, j) ==>
      DedupRun(windowMs, checks).1[i] || DedupRun(windowMs, checks).1[j]
  }

  /** The first sighting of the same fingerprint after the i-th. */
  lemma NextSighting(checks: seq<Check>, i: nat, j: nat) returns (k: nat)
    requires i < j < |checks| && checks[i].fingerprint == checks[j].fingerprint
    ensures i < k <= j && checks[k].fingerprint == checks[i].fingerprint
    ensures forall n :: i < n < k ==> checks[n].fingerprint != checks[i].fingerprint
  {
    k := i + 1;
    while checks[k].fingerprint != checks[i].fingerprint
      invariant i < k <= j && forall n :: i < n < k ==> checks[n].fingerprint != checks[i].fingerprint
      decreases j - k
    {
      k := k + 1;
    }
  }

  /** The clock time 0 is taken for a missing entry: the next sighting is accepted, however soon it comes. */
  lemma ZeroIsAbsent(windowMs: int, checks: seq<Check>, i: nat, j: nat) returns (k: nat)
    requires ClockOk(checks) && Close(windowMs, checks, i, j)
    requires !Refused(windowMs, checks, i) && checks[i].t.record == 0
    ensures Close(windowMs, checks, i, k) && !Refused(windowMs, checks, k)
  {
    k := NextSighting(checks, i, j);
    Remembered(windowMs, checks, i, k);
  }

  /**
   Over every run: accepted sightings of a fingerprint are at least a window apart exactly when none that was
   stored at time 0 is followed by another within its window.
   */
  lemma ApartIffNoneAtZero(windowMs: int, checks: seq<Check>)
    requires ClockOk(checks)
    ensures |DedupRun(windowMs, checks).1| == |checks|
    ensures Apart(windowMs, checks) <==>
      forall i, j :: Close(windowMs, checks, i, j) && !DedupRun(windowMs, checks).1[i] ==> checks[i].t.record != 0
  {
    var verdicts := DedupRun(windowMs, checks).1;
    if checks != [] {
      VerdictAt(windowMs, checks, 0);
    }
    forall i: nat | i < |checks| ensures verdicts[i] == Refused(windowMs, checks, i) {
      VerdictAt(windowMs, checks, i);
    }
    if i, j :| Close(windowMs, checks, i, j) && !verdicts[i] && checks[i].t.record == 0 {
      var k := ZeroIsAbsent(windowMs, checks, i, j);
      assert !verdicts[i] && !verdicts[k];
    } else {
      forall i, j | Close(windowMs, checks, i, j) && !verdicts[i] ensures verdicts[j] {
        var k := AcceptedBefore(windowMs, checks, i, j);
        assert Close(windowMs, checks, k, j);
      }
    }
  }

  /** As no clock reads less than 0, this can be told from the sightings alone. */
  lemma ApartIffNotAgain(windowMs: int, checks: seq<Check>)
    requires ClockOk(checks) && (checks != [] ==> checks[0].t.cleanup >= 0)
    ensures |DedupRun(windowMs, checks).1| == |checks|
    ensures Apart(windowMs, checks)
      <==> forall i, j :: Close(windowMs, checks, i, j) ==> checks[i].t.record != 0
  {
    ApartIffNoneAtZero(windowMs, checks);
    forall i: nat | i < |checks| && checks[i].t.record == 0 ensures !DedupRun(windowMs, checks).1[i] {
      VerdictAt(windowMs, checks, i);
      AllAtZero(windowMs, checks, i);
    }
  }

  lemma NotNegative(checks: seq<Check>, k: nat)
    requires ClockOk(checks) && k < |checks| && checks[0].t.cleanup >= 0
    ensures checks[k].t.record >= 0
  {
    assert k > 0 ==> checks[0].t.record <= checks[k].t.cleanup;
  }

  lemma AllAtZero(windowMs: int, checks: seq<Check>, i: nat)
    requires ClockOk(checks) && i < |checks| && checks[0].t.cleanup >= 0 && checks[i].t.record == 0
    ensures !Refused(windowMs, checks, i)
  {
    if Refused(windowMs, checks, i) {
      var k := LastAccepted(windowMs, checks, checks[i].fingerprint, i);
      assert checks[k].t.record <= checks[i].t.cleanup;
      NotNegative(checks, k);
    }
  }
}

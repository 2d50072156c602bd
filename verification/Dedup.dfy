/**
  LockFreeDeduplicator used by one thread at a time: linked entries updated in place, the
  two-phase expiry of a bucket, and the table of ids it stands for.
 */
module Dedup {
  import opened DedupSteps

  class Entry {
    const id: nat
    const stamp: nat
    var next: Entry?

    constructor (id: nat, stamp: nat)
      ensures this.id == id && this.stamp == stamp && next == null
    {
      this.id, this.stamp, next := id, stamp, null;
    }
  }

  /** What expiry leaves of a chain: its unexpired entries, in the same order. */
  function Keep(c: seq<Entry>, now: nat): (k: seq<Entry>)
    ensures |k| <= |c|
  {
    if c == [] then []
    else Keep(c[..|c| - 1], now) + (if Expired(now, c[|c| - 1].stamp) then [] else [c[|c| - 1]])
  }

  lemma {:induction false} KeepMembers(c: seq<Entry>, now: nat)
    ensures forall e :: e in Keep(c, now) <==> e in c && now <= e.stamp + 3600000
  {
    if c != [] {
      KeepMembers(c[..|c| - 1], now);
      assert c == c[..|c| - 1] + [c[|c| - 1]];
    }
  }

  // Expired entries in front leave nothing behind.
  lemma {:induction false} KeepDrop(c: seq<Entry>, k: nat, now: nat)
    requires k <= |c| && forall i :: 0 <= i < k ==> Expired(now, c[i].stamp)
    ensures Keep(c[k..], now) == Keep(c, now)
  {
    if c == [] {
    } else if k == |c| {
      assert c[..|c| - 1][k - 1..] == [];
      KeepDrop(c[..|c| - 1], k - 1, now);
      assert c[k..] == [];
    } else {
      KeepDrop(c[..|c| - 1], k, now);
      assert c[k..][..|c[k..]| - 1] == c[..|c| - 1][k..];
    }
  }

  // One more entry examined, behind the p + 1 kept of the first i.
  lemma KeepOne(d: seq<Entry>, i: nat, kept: seq<Entry>, p: nat, now: nat)
    requires i < |d| && kept == Keep(d[..i], now) && |kept| == p + 1
    ensures Keep(d[..i + 1], now) == if Expired(now, d[i].stamp) then kept else kept + [d[i]]
    ensures var c := kept + d[i..];
            && c[p + 1] == d[i] && c[p + 2..] == d[i + 1..]
            && c[..p + 1] + c[p + 2..] == kept + d[i + 1..]
            && c == (kept + [d[i]]) + d[i + 1..]
  {
    assert d[..i + 1][..i] == d[..i];
  }

  // The chain d after i of its entries were examined.
  function Midway(d: seq<Entry>, i: nat, now: nat): seq<Entry>
    requires i <= |d|
  {
    Keep(d[..i], now) + d[i..]
  }

  lemma SetTwice(chains: seq<seq<Entry>>, b: nat, c: seq<Entry>, c': seq<Entry>)
    requires b < |chains|
    ensures chains[b := c][b := c'] == chains[b := c']
  {}

  function LeadingExpired(c: seq<Entry>, now: nat): (n: nat)
    ensures n <= |c| && forall i :: 0 <= i < n ==> Expired(now, c[i].stamp)
    ensures n < |c| ==> !Expired(now, c[n].stamp)
  {
    if c == [] || !Expired(now, c[0].stamp) then 0 else 1 + LeadingExpired(c[1..], now)
  }

  function First(c: seq<Entry>): Entry? {
    if c == [] then null else c[0]
  }

  lemma {:induction false} LeadingExpiredIs(c: seq<Entry>, k: nat, now: nat)
    requires k <= |c| && (forall i :: 0 <= i < k ==> Expired(now, c[i].stamp))
    requires k < |c| ==> !Expired(now, c[k].stamp)
    ensures LeadingExpired(c, now) == k
  {
    if k > 0 {
      LeadingExpiredIs(c[1..], k - 1, now);
    }
  }

  ghost predicate HasId(c: seq<Entry>, id: nat) {
    exists e :: e in c && e.id == id
  }

  /** The table after expiry of buckets 0 .. upTo-1, of n buckets in all, at time `now`. */
  function UnexpiredUpTo(m: map<nat, nat>, n: nat, from: nat, upTo: nat, now: nat): map<nat, nat>
    requires n > 0
  {
    map id | id in m && !(from <= id % n < upTo && Expired(now, m[id])) :: m[id]
  }

  // ---------------------------------------------------------------- chains and table

  // Entry e hangs in bucket b of n and the table knows it.
  predicate Known(e: Entry, b: nat, n: nat, table: map<nat, nat>)
    requires n > 0
  {
    e.id % n == b && e.id in table && table[e.id] == e.stamp
  }

  /** The table is what the chains hold: each id hangs once, in its own bucket. */
  ghost predicate Matches(chains: seq<seq<Entry>>, table: map<nat, nat>) {
    && |chains| > 0
    && (forall b :: 0 <= b < |chains| ==> BucketMatches(chains[b], b, |chains|, table))
    && (forall id :: id in table ==> HasId(chains[id % |chains|], id))
  }

  ghost predicate BucketMatches(c: seq<Entry>, b: nat, n: nat, table: map<nat, nat>)
    requires n > 0
  {
    && (forall e :: e in c ==> Known(e, b, n, table))
    && (forall i, j :: 0 <= i < j < |c| ==> c[i].id != c[j].id)
  }

  lemma MatchesAdd(chains: seq<seq<Entry>>, table: map<nat, nat>, e: Entry)
    requires Matches(chains, table) && e.id !in table
    ensures var b := e.id % |chains|; Matches(chains[b := [e] + chains[b]], table[e.id := e.stamp])
  {
    var b := e.id % |chains|;
    var chains' := chains[b := [e] + chains[b]];
    assert e in chains'[b];
    forall id | id in table ensures HasId(chains'[id % |chains|], id) {
      assert HasId(chains[id % |chains|], id);
    }
    forall k | 0 <= k < |chains| ensures BucketMatches(chains'[k], k, |chains|, table[e.id := e.stamp]) {
      assert BucketMatches(chains[k], k, |chains|, table);
      assert forall i :: 0 <= i < |chains[k]| ==> Known(chains[k][i], k, |chains|, table);
    }
  }

  lemma MatchesRemove(chains: seq<seq<Entry>>, table: map<nat, nat>, b: nat, p: nat)
    requires Matches(chains, table) && b < |chains| && p < |chains[b]|
    ensures Matches(chains[b := chains[b][..p] + chains[b][p + 1..]], table - {chains[b][p].id})
  {
    var c := chains[b];
    var c' := c[..p] + c[p + 1..];
    var chains' := chains[b := c'];
    var table' := table - {c[p].id};
    assert BucketMatches(c, b, |chains|, table);
    forall id | id in table' ensures HasId(chains'[id % |chains|], id) {
      var e: Entry :| e in chains[id % |chains|] && e.id == id;
      assert id % |chains| == b ==> e in c';
    }
    forall k | 0 <= k < |chains| ensures BucketMatches(chains'[k], k, |chains|, table') {
      assert BucketMatches(chains[k], k, |chains|, table);
      forall e | e in chains'[k] ensures Known(e, k, |chains|, table') {
        assert Known(e, k, |chains|, table) && Known(c[p], b, |chains|, table);
      }
    }
  }

  /** What expiry does to a chain, it does to the table. */
  lemma ExpiryMatches(chains: seq<seq<Entry>>, table: map<nat, nat>, b: nat, now: nat, table': map<nat, nat>)
    requires Matches(chains, table) && b < |chains|
    requires Matches(chains[b := Keep(chains[b], now)], table')
    ensures table' == UnexpiredUpTo(table, |chains|, b, b + 1, now)
  {
    var n := |chains|;
    var chains' := chains[b := Keep(chains[b], now)];
    KeepMembers(chains[b], now);
    forall id | id in table' ensures id in UnexpiredUpTo(table, n, b, b + 1, now) && table'[id] == table[id] {
      var e: Entry :| e in chains'[id % n] && e.id == id;
      assert BucketMatches(chains'[id % n], id % n, n, table') && BucketMatches(chains[id % n], id % n, n, table);
      assert Known(e, id % n, n, table') && Known(e, id % n, n, table);
    }
    forall id | id in UnexpiredUpTo(table, n, b, b + 1, now) ensures id in table' {
      assert HasId(chains[id % n], id);
      var e: Entry :| e in chains[id % n] && e.id == id;
      assert BucketMatches(chains[id % n], id % n, n, table) && BucketMatches(chains'[id % n], id % n, n, table');
      assert Known(e, id % n, n, table) && (e in chains'[id % n] ==> Known(e, id % n, n, table'));
    }
  }

  class Deduplicator {
    const buckets: array<Entry?>
    ghost var chains: seq<seq<Entry>>   // the entries of each bucket, head first
    ghost var table: map<nat, nat>      // the id of each entry with its timestamp
    ghost var repr: set<Entry>

    ghost predicate Valid()
      reads this, buckets, repr
    {
      && buckets.Length == |chains|
      && Matches(chains, table)
      && (forall b :: 0 <= b < |chains| ==> Linked(b))
    }

    // The pointers of bucket b run through its chain.
    ghost predicate Linked(b: nat)
      requires buckets.Length == |chains| && b < |chains|
      reads this, buckets, repr
    {
      var c := chains[b];
      && buckets[b] == First(c)
      && (forall i :: 0 <= i < |c| ==> c[i] in repr && c[i].next == First(c[i + 1..]))
    }

    // Entries of different buckets, and of different places in one, are different.
    lemma EntriesApart(b: nat, i: nat, k: nat, j: nat)
      requires Matches(chains, table) && b < |chains| && i < |chains[b]| && k < |chains| && j < |chains[k]|
      requires b != k || i != j
      ensures chains[b][i] != chains[k][j]
    {
      assert BucketMatches(chains[b], b, |chains|, table) && BucketMatches(chains[k], k, |chains|, table);
      assert chains[b][i] in chains[b] && chains[k][j] in chains[k];
    }

    constructor (size: nat)
      requires size > 0
      ensures Valid() && fresh(buckets) && repr == {}
      ensures buckets.Length == size && table == map[]
    {
      buckets := new Entry?[size](_ => null);
      chains := seq(size, _ => []);
      table := map[];
      repr := {};
    }

    /** Walks the chain of the bucket; true exactly when the id is in the table. */
    method IsDuplicate(id: nat) returns (found: bool)
      requires Valid()
      ensures found <==> id in table
    {
      ghost var b := id % |chains|;
      assert Linked(b) && BucketMatches(chains[b], b, |chains|, table);
      var entry := buckets[id % buckets.Length];
      ghost var i := 0;
      while entry != null
        invariant 0 <= i <= |chains[b]| && entry == First(chains[b][i..])
        invariant forall j :: 0 <= j < i ==> chains[b][j].id != id
        decreases |chains[b]| - i
      {
        assert entry in chains[b];
        if entry.id == id {
          return true;
        }
        entry := entry.next;
        i := i + 1;
      }
      found := false;
    }

    /** Alone, the exchange succeeds at once: the id goes in with its time unless it is there. */
    method Insert(id: nat, now: nat) returns (ok: bool)
      requires Valid()
      modifies this, buckets
      ensures Valid() && fresh(repr - old(repr)) && old(repr) <= repr
      ensures ok <==> id !in old(table)
      ensures table == if ok then old(table)[id := now] else old(table)
      ensures !ok ==> chains == old(chains)
      ensures ok ==> exists e: Entry :: e.id == id && e.stamp == now &&
                       chains == old(chains)[id % |old(chains)| := [e] + old(chains)[id % |old(chains)|]]
    {
      var found := IsDuplicate(id);
      if found {
        return false;
      }
      var entry := new Entry(id, now);
      Prepend(entry);
      ok := true;
    }

    // The successful exchange: the entry becomes the head of its bucket.
    method Prepend(entry: Entry)
      requires Valid() && entry !in repr && entry.id !in table
      modifies this, buckets, entry
      ensures Valid() && repr == old(repr) + {entry}
      ensures table == old(table)[entry.id := entry.stamp]
      ensures var b := entry.id % |old(chains)|; chains == old(chains)[b := [entry] + old(chains)[b]]
    {
      MatchesAdd(chains, table, entry);
      assert |chains| > 0;
      hide Matches;
      var b := entry.id % buckets.Length;
      assert Linked(b);
      PrependedLinks(entry, chains[b]);
      hide First;
      entry.next := buckets[b];
      buckets[b] := entry;
      chains := chains[b := [entry] + chains[b]];
      table := table[entry.id := entry.stamp];
      repr := repr + {entry};
      assert Linked(b);
      forall k | 0 <= k < |chains| && k != b ensures Linked(k) {
        assert old(Linked(k));
      }
    }

    // The successors in a chain c that got a new head.
    static lemma PrependedLinks(entry: Entry, c: seq<Entry>)
      ensures var c' := [entry] + c;
              && First(c') == c'[0] == entry && First(c'[1..]) == First(c)
              && (forall i :: 1 <= i < |c'| ==> c'[i] == c[i - 1] && First(c'[i + 1..]) == First(c[i..]))
    {
      var c' := [entry] + c;
      assert c'[1..] == c;
      forall i | 1 <= i < |c'| ensures First(c'[i + 1..]) == First(c[i..]) {
        assert c'[i + 1..] == c[i..];
      }
    }

    // Phase 1, one round: the head of the bucket is exchanged for its successor.
    method DropHead(b: nat)
      requires Valid() && b < |chains| && chains[b] != []
      modifies this, buckets
      ensures Valid() && repr == old(repr)
      ensures chains == old(chains)[b := old(chains)[b][1..]]
    {
      MatchesRemove(chains, table, b, 0);
      assert Linked(b) && chains[b][..0] + chains[b][1..] == chains[b][1..];
      table := table - {chains[b][0].id};
      buckets[b] := buckets[b].next;
      chains := chains[b := chains[b][1..]];
      forall k | 0 <= k < |chains| ensures Linked(k) {
        assert old(Linked(k));
      }
    }

    // Phase 2, one round: the entry behind position p is linked past.
    method Unlink(b: nat, ghost p: nat, prev: Entry)
      requires Valid() && b < |chains| && p + 1 < |chains[b]| && chains[b][p] == prev
      modifies this, prev
      ensures Valid() && repr == old(repr)
      ensures chains == old(chains)[b := old(chains)[b][..p + 1] + old(chains)[b][p + 2..]]
    {
      ghost var c := chains[b];
      assert Linked(b);
      MatchesRemove(chains, table, b, p + 1);
      forall k, i | 0 <= k < |chains| && 0 <= i < |chains[k]| && !(k == b && i == p) ensures chains[k][i] != prev {
        EntriesApart(k, i, b, p);
      }
      prev.next := prev.next.next;
      table := table - {c[p + 1].id};
      chains := chains[b := c[..p + 1] + c[p + 2..]];
      forall k | 0 <= k < |chains| ensures Linked(k) {
        assert old(Linked(k));
        if k == b {
          UnlinkedLinks(c, p);
        }
      }
    }

    // The successors in a chain c after the entry behind position p was taken out.
    static lemma UnlinkedLinks(c: seq<Entry>, p: nat)
      requires p + 1 < |c|
      ensures var c' := c[..p + 1] + c[p + 2..];
              && (forall i :: 0 <= i < p ==> c'[i] == c[i] && First(c'[i + 1..]) == First(c[i + 1..]))
              && c'[p] == c[p] && First(c'[p + 1..]) == First(c[p + 2..])
              && (forall i :: p < i < |c'| ==> c'[i] == c[i + 1] && First(c'[i + 1..]) == First(c[i + 2..]))
    {
      var c' := c[..p + 1] + c[p + 2..];
      forall i | 0 <= i < p ensures c'[i] == c[i] && First(c'[i + 1..]) == First(c[i + 1..]) {
        assert c'[i + 1..][0] == c'[i + 1] == c[i + 1];
      }
    }

    /**
      Two-phase expiry run alone: the bucket keeps exactly its unexpired entries, in order. The
      count returned leaves out the entries phase 1 took from the front of the chain.
     */
    method CleanupBucket(b: nat, now: nat) returns (removed: nat)
      requires Valid() && b < |chains|
      modifies this, buckets, repr
      ensures Valid() && repr == old(repr)
      ensures chains == old(chains)[b := Keep(old(chains)[b], now)]
      ensures removed == |old(chains)[b]| - |Keep(old(chains)[b], now)| - LeadingExpired(old(chains)[b], now)
      ensures table == UnexpiredUpTo(old(table), |chains|, b, b + 1, now)
    {
      ghost var before, c := chains, chains[b];
      ghost var known := table;
      var head := CleanupHead(b, now);
      KeepDrop(c, LeadingExpired(c, now), now);
      if head == null {
        removed := 0;
        assert c[LeadingExpired(c, now)..] == [];
      } else {
        removed := CleanupTail(b, now, head);
      }
      assert chains == before[b := Keep(c, now)];
      ExpiryMatches(before, known, b, now, table);
    }

    // Phase 1: expired entries are taken from the front; the head that stays is returned.
    method CleanupHead(b: nat, now: nat) returns (head: Entry?)
      requires Valid() && b < |chains|
      modifies this, buckets
      ensures Valid() && repr == old(repr)
      ensures chains == old(chains)[b := old(chains)[b][LeadingExpired(old(chains)[b], now)..]]
      ensures head == First(chains[b]) && (head != null ==> !Expired(now, head.stamp))
    {
      ghost var before, c := chains, chains[b];
      assert Linked(b);
      head := buckets[b];
      ghost var k := 0;
      assert before == before[b := c[0..]];
      while head != null && Expired(now, head.stamp)
        invariant Valid() && repr == old(repr)
        invariant k <= |c| && chains == before[b := c[k..]] && head == First(c[k..])
        invariant forall i :: 0 <= i < k ==> Expired(now, c[i].stamp)
        decreases |c| - k
      {
        assert Linked(b);
        var next := head.next;
        DropHead(b);
        assert c[k..][1..] == c[k + 1..];
        head := next;
        k := k + 1;
      }
      LeadingExpiredIs(c, k, now);
    }

    // Phase 2: from a head that stays, expired entries are linked past.
    method CleanupTail(b: nat, now: nat, head: Entry) returns (removed: nat)
      requires Valid() && b < |chains| && head == First(chains[b]) && !Expired(now, head.stamp)
      modifies this, repr
      ensures Valid() && repr == old(repr)
      ensures chains == old(chains)[b := Keep(old(chains)[b], now)]
      ensures removed == |old(chains)[b]| - |chains[b]|
    {
      hide Matches;
      ghost var before, d := chains, chains[b];
      assert Linked(b);
      var prev := head;
      var curr := head.next;
      removed := 0;
      ghost var i := 1;
      assert d[..1] == [head] && d[..1][..0] == [];
      assert Midway(d, 1, now) == d;
      assert before == before[b := d];
      while curr != null
        invariant Valid() && repr == old(repr) && 1 <= i <= |d|
        invariant curr == First(d[i..]) && removed == i - |Keep(d[..i], now)|
        invariant chains == before[b := Midway(d, i, now)]
        invariant Keep(d[..i], now) != [] && prev in repr && prev == chains[b][|Keep(d[..i], now)| - 1]
        decreases |d| - i
      {
        var gone;
        prev, curr, gone := TailRound(b, d, i, prev, curr, now);
        removed := if gone then removed + 1 else removed;
        SetTwice(before, b, Midway(d, i, now), Midway(d, i + 1, now));
        i := i + 1;
      }
      assert d[i..] == [];
      assert d[..i] == d && Midway(d, i, now) == Keep(d, now);
    }

    // One round of phase 2, at the i-th entry of the chain d it began with.
    method TailRound(b: nat, ghost d: seq<Entry>, ghost i: nat, prev: Entry, curr: Entry, now: nat)
      returns (prev': Entry, curr': Entry?, gone: bool)
      requires Valid() && b < |chains| && i < |d| && chains[b] == Midway(d, i, now) && curr == First(d[i..])
      requires Keep(d[..i], now) != [] && prev == chains[b][|Keep(d[..i], now)| - 1]
      modifies this, prev
      ensures Valid() && repr == old(repr)
      ensures |Keep(d[..i + 1], now)| == |Keep(d[..i], now)| + (if gone then 0 else 1)
      ensures chains == old(chains)[b := Midway(d, i + 1, now)]
      ensures prev' in repr && prev' == chains[b][|Keep(d[..i + 1], now)| - 1]
      ensures curr' == First(d[i + 1..])
    {
      assert Linked(b);
      ghost var p := |Keep(d[..i], now)| - 1;
      KeepOne(d, i, Keep(d[..i], now), p, now);
      assert curr == d[i] == chains[b][p + 1] && chains[b][p] in repr;
      curr' := curr.next;
      gone := Expired(now, curr.stamp);
      if gone {
        Unlink(b, p, prev);
        prev' := prev;
      } else {
        prev' := curr;
        assert chains == chains[b := Midway(d, i + 1, now)];
      }
    }

    /** Every bucket in turn: what is left is exactly what has not expired. */
    method Cleanup(now: nat)
      requires Valid()
      modifies this, buckets, repr
      ensures Valid() && repr == old(repr)
      ensures chains == Swept(old(chains), |old(chains)|, now)
      ensures table == Unexpired(old(table), now)
    {
      assert buckets.Length == |chains| > 0;
      hide Valid, Keep, Expired, Matches, Linked, Swept, UnexpiredUpTo, Unexpired, LeadingExpired;
      ghost var before := chains;
      ghost var known := table;
      SweepNone(before, known, now);
      for i := 0 to buckets.Length
        invariant Valid() && repr == old(repr) && buckets.Length == |before|
        invariant chains == Swept(before, i, now) && |chains| == |before|
        invariant table == UnexpiredUpTo(known, |before|, 0, i, now)
      {
        CleanupOne(i, now, before, known);
      }
      SweepAll(known, |before|, now);
    }

    // The next bucket, when those before it are clean.
    method CleanupOne(i: nat, now: nat, ghost before: seq<seq<Entry>>, ghost known: map<nat, nat>)
      requires Valid() && i < |before| == |chains|
      requires chains == Swept(before, i, now) && table == UnexpiredUpTo(known, |before|, 0, i, now)
      modifies this, buckets, repr
      ensures Valid() && repr == old(repr) && |chains| == |before|
      ensures chains == Swept(before, i + 1, now) && table == UnexpiredUpTo(known, |before|, 0, i + 1, now)
    {
      hide Keep, Expired, Matches, Linked, LeadingExpired;
      SweepOne(before, i, now);
      ExpiredStep(known, |before|, i, now);
      hide Swept, UnexpiredUpTo;
      var _ := CleanupBucket(i, now);
    }
  }

  /** The chains after buckets 0 .. i-1 were cleaned. */
  function Swept(chains: seq<seq<Entry>>, i: nat, now: nat): seq<seq<Entry>> {
    seq(|chains|, b requires 0 <= b < |chains| => if b < i then Keep(chains[b], now) else chains[b])
  }

  lemma SweepNone(chains: seq<seq<Entry>>, m: map<nat, nat>, now: nat)
    requires |chains| > 0
    ensures Swept(chains, 0, now) == chains && UnexpiredUpTo(m, |chains|, 0, 0, now) == m
  {
    hide Keep, Expired;
  }

  lemma SweepAll(m: map<nat, nat>, n: nat, now: nat)
    requires n > 0
    ensures UnexpiredUpTo(m, n, 0, n, now) == Unexpired(m, now)
  {
    hide Expired;
  }

  /** What a cleanup leaves of the table: the ids of entries at most an hour old, and their times. */
  lemma WhatIsUnexpired(m: map<nat, nat>, now: nat)
    ensures forall id :: id in Unexpired(m, now) <==> id in m && now <= m[id] + 3600000
    ensures forall id :: id in Unexpired(m, now) ==> Unexpired(m, now)[id] == m[id]
  {}

  lemma SweepOne(chains: seq<seq<Entry>>, i: nat, now: nat)
    requires i < |chains|
    ensures Swept(chains, i, now)[i := Keep(Swept(chains, i, now)[i], now)] == Swept(chains, i + 1, now)
  {}

  lemma ExpiredStep(m: map<nat, nat>, n: nat, i: nat, now: nat)
    requires n > 0
    ensures UnexpiredUpTo(UnexpiredUpTo(m, n, 0, i, now), n, i, i + 1, now) == UnexpiredUpTo(m, n, 0, i + 1, now)
  {}
}

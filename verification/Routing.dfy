/** The k-bucket routing table and the selection of the contacts nearest a target. */
module Routing {
  import opened Options
  import opened Words
  import opened Sorting
  import opened Keys

  const K: nat := 20

  datatype Contact = Contact(id: Key, addr: nat)

  // ---- nearest contacts ---------------------------------------------------------------------------------

  function Far(target: Key, id: Key): nat {
    Value(Distance(id, target))
  }

  /** Distances compare as byte strings. */
  function Closer(target: Key): (Contact, Contact) -> bool {
    (a: Contact, b: Contact) => !LexLess(Distance(b.id, target), Distance(a.id, target))
  }

  lemma CloserIsFar(target: Key, a: Contact, b: Contact)
    ensures Closer(target)(a, b) <==> Far(target, a.id) <= Far(target, b.id)
  {
    LexIsValue(Distance(b.id, target), Distance(a.id, target));
  }

  lemma CloserIsOrder(target: Key)
    ensures TotalPreorder(Closer(target))
  {
    forall a, b
      ensures Closer(target)(a, b) <==> Far(target, a.id) <= Far(target, b.id)
    {
      CloserIsFar(target, a, b);
    }
  }

  function Named(): Contact -> Key {
    (c: Contact) => c.id
  }

  ghost predicate DistinctIds(s: seq<Contact>) {
    Distinct(s, Named())
  }

  function TopK(pool: seq<Contact>, target: Key, count: nat): seq<Contact> {
    var sorted := Sort(pool, Closer(target));
    sorted[..Min(count, |sorted|)]
  }

  /** r is the `count` contacts of the pool nearest the target, nearest first. */
  ghost predicate Nearest(r: seq<Contact>, pool: seq<Contact>, target: Key, count: nat) {
    && |r| == Min(count, |pool|)
    && (forall c :: c in r ==> c in pool)
    && (forall i, j :: 0 <= i < j < |r| ==> Far(target, r[i].id) < Far(target, r[j].id))
    && (forall c, i :: c in pool && c !in r && 0 <= i < |r| ==> Far(target, r[i].id) < Far(target, c.id))
  }

  lemma SortedByFar(pool: seq<Contact>, target: Key, i: nat, j: nat)
    requires DistinctIds(pool) && i < j < |Sort(pool, Closer(target))|
    ensures var s := Sort(pool, Closer(target)); Far(target, s[i].id) < Far(target, s[j].id)
  {
    var s := Sort(pool, Closer(target));
    CloserIsOrder(target);
    SortCorrect(pool, Closer(target));
    SortKeepsDistinct(pool, Named(), Closer(target));
    CloserIsFar(target, s[i], s[j]);
    DistanceIsMetric(s[i].id, s[j].id, target);
    assert Named()(s[i]) != Named()(s[j]);
  }

  lemma TopKCorrect(pool: seq<Contact>, target: Key, count: nat)
    requires DistinctIds(pool)
    ensures Nearest(TopK(pool, target, count), pool, target, count)
  {
    var s := Sort(pool, Closer(target));
    var r := TopK(pool, target, count);
    CloserIsOrder(target);
    SortCorrect(pool, Closer(target));
    forall i, j | 0 <= i < j < |s|
      ensures Far(target, s[i].id) < Far(target, s[j].id)
    {
      SortedByFar(pool, target, i, j);
    }
    forall c, i | c in pool && c !in r && 0 <= i < |r|
      ensures Far(target, r[i].id) < Far(target, c.id)
    {
      var j :| 0 <= j < |s| && s[j] == c;
      assert c in s[..j + 1];
    }
  }

  lemma NearestDistinct(r: seq<Contact>, pool: seq<Contact>, target: Key, count: nat)
    requires Nearest(r, pool, target, count)
    ensures DistinctIds(r)
  {
    forall i, j | 0 <= i < j < |r|
      ensures Named()(r[i]) != Named()(r[j])
    {
      assert Far(target, r[i].id) < Far(target, r[j].id);
    }
  }

  /** No element of r is nearer than the one at its place in s, when s also draws on what r does. */
  lemma NotNearer(r: seq<Contact>, s: seq<Contact>, all: seq<Contact>, target: Key, count: nat, i: nat)
    requires Nearest(s, all, target, count) && (forall c :: c in r ==> c in all)
    requires forall a, b :: 0 <= a < b < |r| ==> Far(target, r[a].id) < Far(target, r[b].id)
    requires i < |r| && i < |s| && r[..i] == s[..i]
    ensures Far(target, r[i].id) >= Far(target, s[i].id)
  {
    forall j | 0 <= j < i
      ensures Far(target, s[j].id) < Far(target, r[i].id)
    {
      assert s[j] == s[..i][j] == r[..i][j] == r[j];
    }
  }

  /** The nearest of a pool are the nearest of everyone, as soon as the pool contains those. */
  lemma NearestOfAll(r: seq<Contact>, pool: seq<Contact>, best: seq<Contact>, everyone: seq<Contact>,
                     target: Key, count: nat)
    requires Nearest(r, pool, target, count) && Nearest(best, everyone, target, count)
    requires DistinctIds(pool) && DistinctIds(everyone)
    requires forall c :: c in pool ==> c in everyone
    requires forall c :: c in best ==> c in pool
    ensures r == best
  {
    NearestDistinct(best, everyone, target, count);
    NoMore(pool, everyone, Named());
    NoMore(best, pool, Named());
    SamePrefix(r, pool, best, everyone, target, count, |r|);
    assert r[..|r|] == r && best[..|r|] == best;
  }

  lemma {:induction false} SamePrefix(r: seq<Contact>, pool: seq<Contact>, best: seq<Contact>, everyone: seq<Contact>,
                                      target: Key, count: nat, i: nat)
    requires Nearest(r, pool, target, count) && Nearest(best, everyone, target, count)
    requires DistinctIds(everyone) && i <= |r| && i <= |best|
    requires forall c :: c in pool ==> c in everyone
    requires forall c :: c in best ==> c in pool
    ensures r[..i] == best[..i]
  {
    if i > 0 {
      var j := i - 1;
      SamePrefix(r, pool, best, everyone, target, count, j);
      NotNearer(r, best, everyone, target, count, j);
      NotNearer(best, r, pool, target, count, j);
      DistanceIsMetric(r[j].id, best[j].id, target);
      SameKey(everyone, Named(), r[j], best[j]);
      assert r[..i] == r[..j] + [r[j]] && best[..i] == best[..j] + [best[j]];
    }
  }

  // ---- buckets ------------------------------------------------------------------------------------------

  function Position(bucket: seq<Contact>, id: Key): (p: nat)
    ensures p <= |bucket|
    ensures p < |bucket| ==> bucket[p].id == id
    ensures forall i :: 0 <= i < p ==> bucket[i].id != id
  {
    if |bucket| == 0 || bucket[0].id == id then 0 else 1 + Position(bucket[1..], id)
  }

  /** A known contact moves to the back with its new address; a new one is added while there is room. */
  function Touch(bucket: seq<Contact>, c: Contact): seq<Contact> {
    var p := Position(bucket, c.id);
    if p < |bucket| then bucket[..p] + bucket[p + 1..] + [c]
    else if |bucket| < K then bucket + [c]
    else bucket
  }

  function Drop(bucket: seq<Contact>, id: Key): seq<Contact> {
    if |bucket| == 0 then []
    else
      var rest := Drop(bucket[..|bucket| - 1], id);
      if bucket[|bucket| - 1].id == id then rest else rest + [bucket[|bucket| - 1]]
  }

  ghost predicate BucketOk(self: Key, bucket: seq<Contact>, i: nat) {
    |bucket| <= K && DistinctIds(bucket) && forall c :: c in bucket ==> BucketIndex(self, c.id) == Some(i)
  }

  ghost predicate Filed(self: Key, buckets: seq<seq<Contact>>) {
    forall i :: 0 <= i < |buckets| ==> BucketOk(self, buckets[i], i)
  }

  lemma MovedMembers(bucket: seq<Contact>, p: nat, c: Contact, x: Contact)
    requires DistinctIds(bucket) && p < |bucket| && bucket[p].id == c.id
    ensures x in bucket[..p] + bucket[p + 1..] + [c] <==> x == c || (x in bucket && x.id != c.id)
  {
    var t := bucket[..p] + bucket[p + 1..] + [c];
    if x in bucket && x.id != c.id {
      var i :| 0 <= i < |bucket| && bucket[i] == x;
      assert t[if i < p then i else i - 1] == x;
    }
    if x in t && x != c {
      var j :| 0 <= j < |t| && t[j] == x;
      var i := if j < p then j else j + 1;
      assert bucket[i] == x && Named()(bucket[i]) != Named()(bucket[p]);
    }
    assert t[|t| - 1] == c;
  }

  lemma TouchMembers(bucket: seq<Contact>, c: Contact, x: Contact)
    requires DistinctIds(bucket)
    ensures x in Touch(bucket, c) <==>
              if x.id == c.id then
                (if Position(bucket, c.id) < |bucket| || |bucket| < K then x == c else false)
              else x in bucket
  {
    var p := Position(bucket, c.id);
    if p < |bucket| {
      MovedMembers(bucket, p, c, x);
    }
  }

  /** Whoever is taken in stands last, as the one seen most recently, and the others keep their order. */
  lemma TouchOrder(bucket: seq<Contact>, c: Contact)
    requires DistinctIds(bucket)
    ensures Touch(bucket, c) == if Position(bucket, c.id) < |bucket| || |bucket| < K then Drop(bucket, c.id) + [c]
                                else bucket
  {
    var p := Position(bucket, c.id);
    if p < |bucket| {
      assert forall i :: 0 <= i < |bucket| && i != p ==> Named()(bucket[i]) != Named()(bucket[p]);
      DropAt(bucket, p);
    } else {
      DropNone(bucket, c.id);
    }
  }

  lemma {:induction false} DropNone(bucket: seq<Contact>, id: Key)
    requires forall i :: 0 <= i < |bucket| ==> bucket[i].id != id
    ensures Drop(bucket, id) == bucket
  {
    if |bucket| > 0 {
      DropNone(bucket[..|bucket| - 1], id);
    }
  }

  lemma {:induction false} DropAt(bucket: seq<Contact>, p: nat)
    requires p < |bucket| && forall i :: 0 <= i < |bucket| && i != p ==> bucket[i].id != bucket[p].id
    ensures Drop(bucket, bucket[p].id) == bucket[..p] + bucket[p + 1..]
  {
    var n := |bucket| - 1;
    if p == n {
      DropNone(bucket[..n], bucket[p].id);
    } else {
      DropAt(bucket[..n], p);
      assert bucket[..n][..p] == bucket[..p] && bucket[..n][p + 1..] + [bucket[n]] == bucket[p + 1..];
    }
  }

  lemma TouchDistinct(bucket: seq<Contact>, c: Contact)
    requires DistinctIds(bucket)
    ensures DistinctIds(Touch(bucket, c)) && (|bucket| <= K ==> |Touch(bucket, c)| <= K)
  {
    var p, t := Position(bucket, c.id), Touch(bucket, c);
    if p < |bucket| {
      forall i, j | 0 <= i < j < |t|
        ensures Named()(t[i]) != Named()(t[j])
      {
        var a := if i < p then i else i + 1;
        var b := if j < p then j else j + 1;
        assert t[i] == bucket[a];
        if j < |t| - 1 {
          assert t[j] == bucket[b];
          assert Named()(bucket[a]) != Named()(bucket[b]);
        } else {
          assert Named()(bucket[a]) != Named()(bucket[p]);
        }
      }
    }
  }

  lemma {:induction false} DropMembers(bucket: seq<Contact>, id: Key)
    requires DistinctIds(bucket)
    ensures DistinctIds(Drop(bucket, id)) && |Drop(bucket, id)| <= |bucket|
    ensures forall x :: x in Drop(bucket, id) <==> x in bucket && x.id != id
  {
    if |bucket| > 0 {
      var n := |bucket| - 1;
      DropMembers(bucket[..n], id);
      assert bucket == bucket[..n] + [bucket[n]];
      var rest := Drop(bucket[..n], id);
      forall i | 0 <= i < |rest|
        ensures Named()(rest[i]) != Named()(bucket[n])
      {
        assert rest[i] in bucket[..n];
      }
    }
  }

  // ---- the whole table ----------------------------------------------------------------------------------

  /** Every contact, bucket by bucket. */
  function All(buckets: seq<seq<Contact>>): seq<Contact> {
    if |buckets| == 0 then [] else All(buckets[..|buckets| - 1]) + buckets[|buckets| - 1]
  }

  lemma {:induction false} AllMembers(buckets: seq<seq<Contact>>, c: Contact)
    ensures c in All(buckets) <==> exists i :: 0 <= i < |buckets| && c in buckets[i]
  {
    if |buckets| > 0 {
      AllMembers(buckets[..|buckets| - 1], c);
    }
  }

  /** Ids are unique over the whole table. */
  lemma {:induction false} AllDistinct(self: Key, buckets: seq<seq<Contact>>)
    requires Filed(self, buckets)
    ensures DistinctIds(All(buckets))
  {
    if |buckets| > 0 {
      var n := |buckets| - 1;
      var front, last := All(buckets[..n]), buckets[n];
      AllDistinct(self, buckets[..n]);
      assert BucketOk(self, last, n);
      forall i, j | 0 <= i < |front| && 0 <= j < |last|
        ensures Named()(front[i]) != Named()(last[j])
      {
        AllMembers(buckets[..n], front[i]);
        var b :| 0 <= b < n && front[i] in buckets[..n][b];
        assert BucketOk(self, buckets[b], b);
      }
      assert All(buckets) == front + last;
    }
  }

  type Buckets = bs: seq<seq<Contact>> | |bs| == BUCKETS witness seq(BUCKETS, _ => [])

  function Inserted(self: Key, buckets: Buckets, c: Contact): Buckets {
    match BucketIndex(self, c.id)
    case None => buckets
    case Some(i) => buckets[i := Touch(buckets[i], c)]
  }

  function Removed(self: Key, buckets: Buckets, id: Key): Buckets {
    match BucketIndex(self, id)
    case None => buckets
    case Some(i) => buckets[i := Drop(buckets[i], id)]
  }

  lemma BucketFiled(self: Key, buckets: Buckets, i: nat, bucket: seq<Contact>)
    requires Filed(self, buckets) && i < BUCKETS && BucketOk(self, bucket, i)
    ensures Filed(self, buckets[i := bucket])
  {
    var next := buckets[i := bucket];
    forall j | 0 <= j < |next|
      ensures BucketOk(self, next[j], j)
    {
      assert BucketOk(self, buckets[j], j);
    }
  }

  /** Inserting keeps every contact in its bucket, ids unique and buckets within capacity. */
  lemma InsertKeepsFiled(self: Key, buckets: Buckets, c: Contact)
    requires Filed(self, buckets)
    ensures Filed(self, Inserted(self, buckets, c))
  {
    if self != c.id {
      var i := BucketIndex(self, c.id).value;
      assert BucketOk(self, buckets[i], i);
      TouchDistinct(buckets[i], c);
      forall x | x in Touch(buckets[i], c)
        ensures BucketIndex(self, x.id) == Some(i)
      {
        TouchMembers(buckets[i], c, x);
      }
      BucketFiled(self, buckets, i, Touch(buckets[i], c));
    }
  }

  lemma RemoveKeepsFiled(self: Key, buckets: Buckets, id: Key)
    requires Filed(self, buckets)
    ensures Filed(self, Removed(self, buckets, id))
  {
    if self != id {
      var i := BucketIndex(self, id).value;
      assert BucketOk(self, buckets[i], i);
      DropMembers(buckets[i], id);
      BucketFiled(self, buckets, i, Drop(buckets[i], id));
    }
  }

  /** A contact is in the table exactly when it is in its own bucket. */
  lemma InOwnBucket(self: Key, buckets: Buckets, x: Contact)
    requires Filed(self, buckets)
    ensures x in All(buckets) <==> self != x.id && x in buckets[BucketIndex(self, x.id).value]
  {
    AllMembers(buckets, x);
    if x in All(buckets) {
      var i :| 0 <= i < BUCKETS && x in buckets[i];
      assert BucketOk(self, buckets[i], i);
    }
  }

  /** Room for a contact: it is there already, or its bucket is not full. */
  predicate HasRoom(self: Key, buckets: Buckets, id: Key)
    requires self != id
  {
    var b := buckets[BucketIndex(self, id).value];
    Position(b, id) < |b| || |b| < K
  }

  /** Inserting never displaces another contact; it takes exactly when there is room, with the new address. */
  lemma InsertedMembers(self: Key, buckets: Buckets, c: Contact, x: Contact)
    requires Filed(self, buckets)
    ensures x in All(Inserted(self, buckets, c)) <==>
              if x.id == c.id then self != c.id && HasRoom(self, buckets, c.id) && x == c
              else x in All(buckets)
  {
    InsertKeepsFiled(self, buckets, c);
    InOwnBucket(self, buckets, x);
    InOwnBucket(self, Inserted(self, buckets, c), x);
    if self != c.id {
      var i := BucketIndex(self, c.id).value;
      assert BucketOk(self, buckets[i], i);
      TouchMembers(buckets[i], c, x);
    }
  }

  lemma RemovedMembers(self: Key, buckets: Buckets, id: Key, x: Contact)
    requires Filed(self, buckets)
    ensures x in All(Removed(self, buckets, id)) <==> x in All(buckets) && x.id != id
  {
    RemoveKeepsFiled(self, buckets, id);
    InOwnBucket(self, buckets, x);
    InOwnBucket(self, Removed(self, buckets, id), x);
    if self != id {
      var i := BucketIndex(self, id).value;
      assert BucketOk(self, buckets[i], i);
      DropMembers(buckets[i], id);
    }
  }

  lemma InsertKeepsFull(self: Key, buckets: Buckets, c: Contact, j: nat)
    requires Filed(self, buckets) && j < BUCKETS && |buckets[j]| == K
    ensures |Inserted(self, buckets, c)[j]| == K
  {
  }

  lemma InsertTakesOrIsFull(self: Key, buckets: Buckets, c: Contact)
    requires Filed(self, buckets) && c.id != self
    ensures c in All(Inserted(self, buckets, c))
            || |Inserted(self, buckets, c)[BucketIndex(self, c.id).value]| == K
  {
    var i := BucketIndex(self, c.id).value;
    assert BucketOk(self, buckets[i], i);
    InsertedMembers(self, buckets, c, c);
    if !HasRoom(self, buckets, c.id) {
      InsertKeepsFull(self, buckets, c, i);
    }
  }

  class RoutingTable {
    const selfId: Key
    var buckets: Buckets

    ghost predicate Valid()
      reads this
    {
      Filed(selfId, buckets)
    }

    constructor (selfId: Key)
      ensures Valid() && this.selfId == selfId && buckets == seq(BUCKETS, _ => [])
    {
      this.selfId := selfId;
      buckets := seq(BUCKETS, _ => []);
    }

    method Insert(c: Contact)
      requires Valid()
      modifies this
      ensures Valid() && buckets == Inserted(selfId, old(buckets), c)
    {
      InsertKeepsFiled(selfId, buckets, c);
      var idx := FindBucket(selfId, c.id);
      if idx.None? {
        return;
      }
      var bucket := buckets[idx.value];
      var pos := Position(bucket, c.id);
      if pos < |bucket| {
        bucket := bucket[..pos] + bucket[pos + 1..];
        bucket := bucket + [c];
      } else if |bucket| < K {
        bucket := bucket + [c];
      }
      buckets := buckets[idx.value := bucket];
    }

    method Remove(id: Key)
      requires Valid()
      modifies this
      ensures Valid() && buckets == Removed(selfId, old(buckets), id)
    {
      RemoveKeepsFiled(selfId, buckets, id);
      var idx := FindBucket(selfId, id);
      if idx.Some? {
        buckets := buckets[idx.value := Drop(buckets[idx.value], id)];
      }
    }

    /** The contacts nearest a target. */
    method Closest(target: Key, count: nat) returns (r: seq<Contact>)
      requires Valid()
      ensures Nearest(r, All(buckets), target, count)
    {
      AllDistinct(selfId, buckets);
      TopKCorrect(All(buckets), target, count);
      r := TopK(All(buckets), target, count);
    }
  }
}

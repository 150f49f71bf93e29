/** The head registry: owner-signed heads in a sorted vector, merged last-writer-wins. */
module Registry {
  import opened Messages
  import opened Options
  import opened Search
  import opened SortedVec
  import opened Names

  type Key = (Id, string)

  /** A signed head (owner, name) -> (cid, version); a submission and a stored row have the same shape. */
  datatype HeadEntry = HeadEntry(owner: Id, name: string, cid: nat, version: nat, signature: Signature) {
    predicate Verify() {
      Verifies(owner, HeadMsg(owner, name, cid, version), signature)
    }
  }

  datatype ApplyError = BadSignature | StaleVersion

  datatype Result<T> = Ok(value: T) | Err(error: ApplyError)

  function KeyOf(e: HeadEntry): Key {
    (e.owner, e.name)
  }

  function CompareKeys(a: Key, b: Key): Ordering {
    var owners := CompareNat(a.0, b.0);
    if owners == Equal then CompareText(a.1, b.1) else owners
  }

  lemma KeysAreOrdered()
    ensures IsOrder(CompareKeys)
  {
    TextIsOrder();
  }

  function Resolve(s: seq<HeadEntry>, k: Key): Option<HeadEntry> {
    Lookup(s, k, KeyOf, CompareKeys)
  }

  function Upsert(s: seq<HeadEntry>, e: HeadEntry): seq<HeadEntry> {
    Put(s, e, KeyOf, CompareKeys)
  }

  /** The registry transition on a submission. */
  function Apply(s: seq<HeadEntry>, sub: HeadEntry): Result<seq<HeadEntry>> {
    if !sub.Verify() then Err(BadSignature)
    else
      match Resolve(s, KeyOf(sub))
      case Some(held) => if sub.version <= held.version then Err(StaleVersion) else Ok(Upsert(s, sub))
      case None => Ok(Upsert(s, sub))
  }

  /** Take one foreign row in, if it is signed and newer than what is held. */
  function MergeOne(s: seq<HeadEntry>, e: HeadEntry): seq<HeadEntry> {
    if !e.Verify() then s
    else
      match Resolve(s, KeyOf(e))
      case Some(held) => if e.version > held.version then Upsert(s, e) else s
      case None => Upsert(s, e)
  }

  function MergeAll(s: seq<HeadEntry>, es: seq<HeadEntry>): seq<HeadEntry> {
    if |es| == 0 then s else MergeOne(MergeAll(s, es[..|es| - 1]), es[|es| - 1])
  }

  class RegistryState {
    var entries: seq<HeadEntry>

    constructor ()
      ensures entries == []
    {
      entries := [];
    }

    /** Merge rows in place, one after another. */
    method MergeEntries(es: seq<HeadEntry>)
      modifies this
      ensures entries == MergeAll(old(entries), es)
    {
      ghost var before := entries;
      for i := 0 to |es|
        invariant entries == MergeAll(before, es[..i])
      {
        assert es[..i + 1][..i] == es[..i];
        var e := es[i];
        if e.Verify() {
          var p := Find(entries, KeyOf(e), KeyOf, CompareKeys);
          if p.Found? {
            if e.version > entries[p.index].version {
              entries := entries[p.index := e];
            }
          } else {
            entries := entries[..p.index] + [e] + entries[p.index..];
          }
        }
      }
      assert es[..|es|] == es;
    }
  }

  // ---- states ---------------------------------------------------------------------------------------

  ghost predicate Canonised(s: seq<HeadEntry>) {
    Increasing(s, KeyOf, CompareKeys) && forall e :: e in s ==> e.Verify()
  }

  /** The row a key holds after seeing another: the newer one, and the held one on a tie. */
  function Newer(held: Option<HeadEntry>, seen: Option<HeadEntry>): Option<HeadEntry> {
    if held.None? then seen
    else if seen.None? then held
    else if seen.value.version > held.value.version then seen
    else held
  }

  lemma UpsertCorrect(s: seq<HeadEntry>, e: HeadEntry, k: Key)
    requires Canonised(s) && e.Verify()
    ensures Canonised(Upsert(s, e))
    ensures Resolve(Upsert(s, e), k) == if k == KeyOf(e) then Some(e) else Resolve(s, k)
  {
    KeysAreOrdered();
    PutIncreasing(s, e, KeyOf, CompareKeys);
    PutCorrect(s, e, KeyOf, CompareKeys, k);
  }

  lemma MergeOneCorrect(s: seq<HeadEntry>, e: HeadEntry, k: Key)
    requires Canonised(s)
    ensures Canonised(MergeOne(s, e))
    ensures Resolve(MergeOne(s, e), k)
            == Newer(Resolve(s, k), if e.Verify() && KeyOf(e) == k then Some(e) else None)
  {
    if e.Verify() {
      UpsertCorrect(s, e, k);
    }
  }

  /** The newest signed row for a key among a list, the first one on ties. */
  function Newest(es: seq<HeadEntry>, k: Key): Option<HeadEntry> {
    if |es| == 0 then None
    else
      var e := es[|es| - 1];
      Newer(Newest(es[..|es| - 1], k), if e.Verify() && KeyOf(e) == k then Some(e) else None)
  }

  lemma NewerAssociates(a: Option<HeadEntry>, b: Option<HeadEntry>, c: Option<HeadEntry>)
    ensures Newer(Newer(a, b), c) == Newer(a, Newer(b, c))
  {
  }

  /** Merging any list, in any state, is a last-writer-wins join key by key. */
  lemma {:induction false} MergeAllCorrect(s: seq<HeadEntry>, es: seq<HeadEntry>, k: Key)
    requires Canonised(s)
    ensures Canonised(MergeAll(s, es))
    ensures Resolve(MergeAll(s, es), k) == Newer(Resolve(s, k), Newest(es, k))
  {
    if |es| > 0 {
      var n := |es| - 1;
      MergeAllCorrect(s, es[..n], k);
      MergeOneCorrect(MergeAll(s, es[..n]), es[n], k);
      NewerAssociates(Resolve(s, k), Newest(es[..n], k),
                      if es[n].Verify() && KeyOf(es[n]) == k then Some(es[n]) else None);
    }
  }

  /** In a replica's own state the newest row for a key is the one it resolves to. */
  lemma {:induction false} NewestOfState(t: seq<HeadEntry>, k: Key)
    requires Canonised(t)
    ensures Newest(t, k) == Resolve(t, k)
  {
    KeysAreOrdered();
    LookupCorrect(t, k, KeyOf, CompareKeys);
    if i :| 0 <= i < |t| && KeyOf(t[i]) == k {
      NewestAt(t, k, i, |t|);
      assert t[..|t|] == t;
    } else {
      NewestNone(t, k);
    }
  }

  lemma {:induction false} NewestNone(t: seq<HeadEntry>, k: Key)
    requires forall i :: 0 <= i < |t| ==> KeyOf(t[i]) != k
    ensures Newest(t, k) == None
  {
    if |t| > 0 {
      NewestNone(t[..|t| - 1], k);
    }
  }

  lemma {:induction false} NewestAt(t: seq<HeadEntry>, k: Key, i: nat, m: nat)
    requires Canonised(t) && i < m <= |t| && KeyOf(t[i]) == k
    ensures Newest(t[..m], k) == Some(t[i])
  {
    KeysAreOrdered();
    var n := m - 1;
    assert t[..m][..n] == t[..n] && t[..m][n] == t[n];
    assert t[i] in t;
    if i == n {
      forall j | 0 <= j < n
        ensures KeyOf(t[..n][j]) != k
      {
        assert CompareKeys(KeyOf(t[j]), KeyOf(t[n])) == Less;
      }
      NewestNone(t[..n], k);
    } else {
      NewestAt(t, k, i, n);
      assert CompareKeys(KeyOf(t[i]), KeyOf(t[n])) == Less;
    }
  }

  // ---- the join laws ----------------------------------------------------------------------------------

  lemma MergeStates(s: seq<HeadEntry>, t: seq<HeadEntry>, k: Key)
    requires Canonised(s) && Canonised(t)
    ensures Canonised(MergeAll(s, t))
    ensures Resolve(MergeAll(s, t), k) == Newer(Resolve(s, k), Resolve(t, k))
  {
    MergeAllCorrect(s, t, k);
    NewestOfState(t, k);
  }

  lemma SameState(s: seq<HeadEntry>, t: seq<HeadEntry>)
    requires Canonised(s) && Canonised(t) && forall k :: Resolve(s, k) == Resolve(t, k)
    ensures s == t
  {
    KeysAreOrdered();
    forall k
      ensures Lookup(s, k, KeyOf, CompareKeys) == Lookup(t, k, KeyOf, CompareKeys)
    {
      assert Resolve(s, k) == Resolve(t, k);
    }
    Canonical(s, t, KeyOf, CompareKeys);
  }

  lemma MergeIdempotent(s: seq<HeadEntry>)
    requires Canonised(s)
    ensures MergeAll(s, s) == s
  {
    forall k
      ensures Resolve(MergeAll(s, s), k) == Resolve(s, k)
    {
      MergeStates(s, s, k);
    }
    MergeAllCorrect(s, s, (0, ""));
    SameState(MergeAll(s, s), s);
  }

  lemma MergeAssociative(s: seq<HeadEntry>, t: seq<HeadEntry>, u: seq<HeadEntry>)
    requires Canonised(s) && Canonised(t) && Canonised(u)
    ensures MergeAll(MergeAll(s, t), u) == MergeAll(s, MergeAll(t, u))
  {
    MergeAllCorrect(s, t, (0, ""));
    MergeAllCorrect(t, u, (0, ""));
    MergeAllCorrect(MergeAll(s, t), u, (0, ""));
    MergeAllCorrect(s, MergeAll(t, u), (0, ""));
    forall k
      ensures Resolve(MergeAll(MergeAll(s, t), u), k) == Resolve(MergeAll(s, MergeAll(t, u)), k)
    {
      MergeStates(s, t, k);
      MergeStates(t, u, k);
      MergeStates(MergeAll(s, t), u, k);
      MergeStates(s, MergeAll(t, u), k);
      NewerAssociates(Resolve(s, k), Resolve(t, k), Resolve(u, k));
    }
    SameState(MergeAll(MergeAll(s, t), u), MergeAll(s, MergeAll(t, u)));
  }

  /** No owner signed two different heads at one version that the two states hold. */
  ghost predicate NoTies(s: seq<HeadEntry>, t: seq<HeadEntry>) {
    forall k :: Resolve(s, k).Some? && Resolve(t, k).Some?
                && Resolve(s, k).value.version == Resolve(t, k).value.version ==>
      Resolve(s, k) == Resolve(t, k)
  }

  /** Merge commutes exactly when no key is held at one version with two different rows. */
  lemma MergeCommutesIff(s: seq<HeadEntry>, t: seq<HeadEntry>)
    requires Canonised(s) && Canonised(t)
    ensures MergeAll(s, t) == MergeAll(t, s) <==> NoTies(s, t)
  {
    MergeAllCorrect(s, t, (0, ""));
    MergeAllCorrect(t, s, (0, ""));
    forall k
      ensures Resolve(MergeAll(s, t), k) == Newer(Resolve(s, k), Resolve(t, k))
      ensures Resolve(MergeAll(t, s), k) == Newer(Resolve(t, k), Resolve(s, k))
    {
      MergeStates(s, t, k);
      MergeStates(t, s, k);
    }
    if NoTies(s, t) {
      SameState(MergeAll(s, t), MergeAll(t, s));
    }
  }

  /** Two states one owner signed at the same version: each replica keeps its own. */
  lemma TiesDoNotCommute(owner: Id, name: string, version: nat)
    ensures var a := [HeadEntry(owner, name, 1, version, Signed(owner, HeadMsg(owner, name, 1, version)))];
            var b := [HeadEntry(owner, name, 2, version, Signed(owner, HeadMsg(owner, name, 2, version)))];
            Canonised(a) && Canonised(b) && MergeAll(a, b) == a && MergeAll(b, a) == b
  {
    var a := [HeadEntry(owner, name, 1, version, Signed(owner, HeadMsg(owner, name, 1, version)))];
    var b := [HeadEntry(owner, name, 2, version, Signed(owner, HeadMsg(owner, name, 2, version)))];
    KeysAreOrdered();
    LookupCorrect(a, (owner, name), KeyOf, CompareKeys);
    LookupCorrect(b, (owner, name), KeyOf, CompareKeys);
    assert MergeAll(a, b[..0]) == a && MergeAll(b, a[..0]) == b;
    assert a[0] in a && b[0] in b;
  }

  /** A submission is refused for a bad signature, or else for a version not above the one held; otherwise it is
      the row its key resolves to, and no other key is touched. */
  lemma ApplyIff(s: seq<HeadEntry>, sub: HeadEntry, k: Key)
    requires Canonised(s)
    ensures var signed := sub.signature == Signed(sub.owner, HeadMsg(sub.owner, sub.name, sub.cid, sub.version));
            var stale := exists e :: e in s && e.owner == sub.owner && e.name == sub.name && e.version >= sub.version;
            && (Apply(s, sub) == Err(BadSignature) <==> !signed)
            && (Apply(s, sub) == Err(StaleVersion) <==> signed && stale)
            && (Apply(s, sub).Ok? ==>
                  Resolve(Apply(s, sub).value, k) == if k == (sub.owner, sub.name) then Some(sub) else Resolve(s, k))
  {
    KeysAreOrdered();
    LookupCorrect(s, KeyOf(sub), KeyOf, CompareKeys);
    if sub.Verify() {
      UpsertCorrect(s, sub, k);
    }
  }

  /** Rows are kept by owner, then by name. */
  lemma RowsInOrder(s: seq<HeadEntry>, i: nat, j: nat)
    requires Canonised(s) && i < j < |s|
    ensures s[i].owner < s[j].owner || (s[i].owner == s[j].owner && CompareText(s[i].name, s[j].name) == Less)
  {
    TextEqual(s[i].name, s[j].name);
  }

  // ---- whole runs -------------------------------------------------------------------------------------

  datatype Op = Submit(sub: HeadEntry) | MergeIn(es: seq<HeadEntry>)

  function Step(s: seq<HeadEntry>, op: Op): seq<HeadEntry> {
    match op
    case Submit(sub) => (match Apply(s, sub) case Ok(next) => next case Err(_) => s)
    case MergeIn(es) => MergeAll(s, es)
  }

  function Run(ops: seq<Op>): seq<HeadEntry> {
    if |ops| == 0 then [] else Step(Run(ops[..|ops| - 1]), ops[|ops| - 1])
  }

  /** The rows one operation offers. */
  function Offers(op: Op): seq<HeadEntry> {
    match op
    case Submit(sub) => [sub]
    case MergeIn(es) => es
  }

  /** Every row offered over a run, in order. */
  function Offered(ops: seq<Op>): seq<HeadEntry> {
    if |ops| == 0 then [] else Offered(ops[..|ops| - 1]) + Offers(ops[|ops| - 1])
  }

  /** A row for that owner and name, signed by the owner over all of it. */
  predicate SignedFor(e: HeadEntry, k: Key) {
    (e.owner, e.name) == k && e.signature == Signed(e.owner, HeadMsg(e.owner, e.name, e.cid, e.version))
  }

  /** The row is at place i, and the signed rows for the key are nowhere newer and before i all older. */
  ghost predicate FirstAmongNewest(es: seq<HeadEntry>, k: Key, i: nat) {
    && i < |es| && SignedFor(es[i], k)
    && forall j :: 0 <= j < |es| && SignedFor(es[j], k) ==>
         if j < i then es[j].version < es[i].version else es[j].version <= es[i].version
  }

  /** r is the first of the newest signed rows for the key, or nothing when there is no signed row for it. */
  ghost predicate IsNewest(es: seq<HeadEntry>, k: Key, r: Option<HeadEntry>) {
    match r
    case None => forall i :: 0 <= i < |es| ==> !SignedFor(es[i], k)
    case Some(e) => exists i: nat :: FirstAmongNewest(es, k, i) && es[i] == e
  }

  lemma {:induction false} NewestIs(es: seq<HeadEntry>, k: Key)
    ensures IsNewest(es, k, Newest(es, k))
  {
    if |es| > 0 {
      var n := |es| - 1;
      NewestIs(es[..n], k);
      var before := Newest(es[..n], k);
      if before.Some? {
        var i: nat :| FirstAmongNewest(es[..n], k, i) && es[..n][i] == before.value;
        if SignedFor(es[n], k) && es[n].version > before.value.version {
          assert FirstAmongNewest(es, k, n);
        } else {
          assert FirstAmongNewest(es, k, i);
        }
      } else if SignedFor(es[n], k) {
        assert FirstAmongNewest(es, k, n);
      }
    }
  }

  lemma {:induction false} NewestAppend(a: seq<HeadEntry>, b: seq<HeadEntry>, k: Key)
    ensures Newest(a + b, k) == Newer(Newest(a, k), Newest(b, k))
  {
    if |b| == 0 {
      assert a + b == a;
    } else {
      var n := |b| - 1;
      NewestAppend(a, b[..n], k);
      assert (a + b)[..|a + b| - 1] == a + b[..n] && (a + b)[|a + b| - 1] == b[n];
      NewerAssociates(Newest(a, k), Newest(b[..n], k), if SignedFor(b[n], k) then Some(b[n]) else None);
    }
  }

  lemma NothingResolves(k: Key)
    ensures Canonised([]) && Resolve([], k) == None
  {
    KeysAreOrdered();
    LookupCorrect<HeadEntry, Key>([], k, KeyOf, CompareKeys);
  }

  lemma NewestOne(e: HeadEntry, k: Key)
    ensures Newest([e], k) == if SignedFor(e, k) then Some(e) else None
  {
    assert [e][..0] == [] && Newest([], k) == None;
  }

  /** Either operation joins what it offers into the state, key by key. */
  lemma StepJoins(s: seq<HeadEntry>, op: Op, k: Key)
    requires Canonised(s)
    ensures Canonised(Step(s, op))
    ensures Resolve(Step(s, op), k) == Newer(Resolve(s, k), Newest(Offers(op), k))
  {
    match op
    case Submit(sub) =>
      NewestOne(sub, k);
      if sub.Verify() {
        UpsertCorrect(s, sub, k);
      }
    case MergeIn(es) => MergeAllCorrect(s, es, k);
  }

  lemma {:induction false} RunIsNewest(ops: seq<Op>, k: Key)
    ensures Canonised(Run(ops))
    ensures Resolve(Run(ops), k) == Newest(Offered(ops), k)
  {
    if |ops| == 0 {
      NothingResolves(k);
    } else {
      var n := |ops| - 1;
      RunIsNewest(ops[..n], k);
      StepJoins(Run(ops[..n]), ops[n], k);
      NewestAppend(Offered(ops[..n]), Offers(ops[n]), k);
    }
  }

  /** Whatever mix of submissions and merges came in, the state is sorted and signed throughout, and a key
      resolves to the first of the newest signed rows ever offered for it, or to nothing if there were none. */
  lemma RunIsLastWriterWins(ops: seq<Op>, k: Key)
    ensures Canonised(Run(ops))
    ensures IsNewest(Offered(ops), k, Resolve(Run(ops), k))
  {
    RunIsNewest(ops, k);
    NewestIs(Offered(ops), k);
  }

  // ---- replicas converge ------------------------------------------------------------------------------

  ghost function Rows(ops: seq<Op>): set<HeadEntry> {
    set e | e in Offered(ops)
  }

  /** A signed row with no newer signed row for its key. */
  ghost predicate IsTop(rows: set<HeadEntry>, e: HeadEntry) {
    e in rows && e.Verify() && forall f :: f in rows && SignedFor(f, KeyOf(e)) ==> f.version <= e.version
  }

  /** No owner signed two different newest rows for one name. */
  ghost predicate OneTopEach(rows: set<HeadEntry>) {
    forall e, f :: IsTop(rows, e) && IsTop(rows, f) && KeyOf(e) == KeyOf(f) ==> e == f
  }

  lemma ResolvesToTop(ops: seq<Op>, k: Key)
    ensures match Resolve(Run(ops), k)
            case None => forall e :: e in Rows(ops) ==> !SignedFor(e, k)
            case Some(e) => IsTop(Rows(ops), e) && KeyOf(e) == k
  {
    RunIsLastWriterWins(ops, k);
    var es, r := Offered(ops), Resolve(Run(ops), k);
    if r.Some? {
      var i: nat :| FirstAmongNewest(es, k, i) && es[i] == r.value;
    }
  }

  lemma RunsConverge(ops: seq<Op>, qs: seq<Op>)
    requires Rows(ops) == Rows(qs) && OneTopEach(Rows(ops))
    ensures Run(ops) == Run(qs)
  {
    RunIsLastWriterWins(ops, (0, ""));
    RunIsLastWriterWins(qs, (0, ""));
    forall k
      ensures Resolve(Run(ops), k) == Resolve(Run(qs), k)
    {
      ResolvesToTop(ops, k);
      ResolvesToTop(qs, k);
    }
    SameState(Run(ops), Run(qs));
  }

  lemma {:induction false} ListRows(rows: set<HeadEntry>) returns (es: seq<HeadEntry>)
    ensures forall e :: e in es <==> e in rows
  {
    if rows == {} {
      es := [];
    } else {
      var e :| e in rows;
      es := ListRows(rows - {e});
      es := [e] + es;
    }
  }

  /** Of two newest rows, the one offered first stays. */
  lemma FirstTopStays(rows: set<HeadEntry>, es: seq<HeadEntry>, e: HeadEntry)
    requires (forall f :: f in es <==> f in rows) && IsTop(rows, e)
    ensures Rows([MergeIn([e] + es)]) == rows
    ensures Resolve(Run([MergeIn([e] + es)]), KeyOf(e)) == Some(e)
  {
    var ops, all := [MergeIn([e] + es)], [e] + es;
    assert ops[..0] == [] && Offered(ops) == all;
    RunIsLastWriterWins(ops, KeyOf(e));
    assert all[0] == e && SignedFor(all[0], KeyOf(e));
    var r := Resolve(Run(ops), KeyOf(e));
    assert r.Some?;
    var i: nat :| FirstAmongNewest(all, KeyOf(e), i) && all[i] == r.value;
    assert all[i] in rows;
  }

  /** Replicas that were offered the same rows, in any order, grouping and repetition, end in the same state, if
      and only if no owner signed two different newest rows for one name. */
  lemma RunsConvergeIff(rows: set<HeadEntry>)
    ensures (forall ops, qs :: Rows(ops) == rows && Rows(qs) == rows ==> Run(ops) == Run(qs)) <==> OneTopEach(rows)
  {
    if OneTopEach(rows) {
      forall ops, qs | Rows(ops) == rows && Rows(qs) == rows
        ensures Run(ops) == Run(qs)
      {
        RunsConverge(ops, qs);
      }
    } else {
      var e, f :| IsTop(rows, e) && IsTop(rows, f) && KeyOf(e) == KeyOf(f) && e != f;
      var es := ListRows(rows);
      FirstTopStays(rows, es, e);
      FirstTopStays(rows, es, f);
      assert Run([MergeIn([e] + es)]) != Run([MergeIn([f] + es)]);
    }
  }

  /** No operation ever lowers a version or drops a key. */
  lemma VersionsNeverFall(ops: seq<Op>, op: Op, k: Key)
    requires Resolve(Run(ops), k).Some?
    ensures Resolve(Run(ops + [op]), k).Some?
    ensures Resolve(Run(ops + [op]), k).value.version >= Resolve(Run(ops), k).value.version
  {
    RunIsNewest(ops, k);
    StepJoins(Run(ops), op, k);
    assert (ops + [op])[..|ops|] == ops;
  }
}

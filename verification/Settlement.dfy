/** Splitting a consumer's paid quota over the cheques it owes, first come first paid. */
module Settlement {
  import opened Messages
  import opened Cheques
  import opened Sorting
  import opened Sums
  import opened Words

  /** Timestamp first, then server id. */
  predicate NotAfter(a: ServingCheque, b: ServingCheque) {
    a.timestamp < b.timestamp || (a.timestamp == b.timestamp && a.server <= b.server)
  }

  function Earliest(): (ServingCheque, ServingCheque) -> bool {
    (a, b) => NotAfter(a, b)
  }

  function Server(): ServingCheque -> Id {
    (c: ServingCheque) => c.server
  }

  ghost predicate DistinctServers(cs: seq<ServingCheque>) {
    Distinct(cs, Server())
  }

  /** Everything the cheques acknowledge. */
  function Owed(cs: seq<ServingCheque>): nat {
    if |cs| == 0 then 0 else Owed(cs[..|cs| - 1]) + cs[|cs| - 1].cumulative
  }

  type Split = map<Id, (nat, nat)>

  /** Each cheque in turn gets what the quota still holds after all before it. */
  function Shares(cs: seq<ServingCheque>, quota: nat): Split {
    if |cs| == 0 then map[]
    else
      var n := |cs| - 1;
      var paid := Min(quota - Min(quota, Owed(cs[..n])), cs[n].cumulative);
      Shares(cs[..n], quota)[cs[n].server := (paid, cs[n].cumulative - paid)]
  }

  function Settle(cheques: seq<ServingCheque>, quota: nat): Split {
    Shares(Sort(cheques, Earliest()), quota)
  }

  /** The settlement loop. */
  method AllocateQuota(cheques: seq<ServingCheque>, quota: nat) returns (out: Split)
    ensures out == Settle(cheques, quota)
  {
    var ordered := Sort(cheques, Earliest());
    var remaining := quota;
    out := map[];
    for i := 0 to |ordered|
      invariant remaining == quota - Min(quota, Owed(ordered[..i]))
      invariant out == Shares(ordered[..i], quota)
    {
      assert ordered[..i + 1][..i] == ordered[..i];
      var paid := Min(remaining, ordered[i].cumulative);
      remaining := remaining - paid;
      out := out[ordered[i].server := (paid, ordered[i].cumulative - paid)];
    }
    assert ordered[..|ordered|] == ordered;
  }

  function Paid(out: Split): nat -> nat {
    k => if k in out then out[k].0 else 0
  }

  function Servers(cs: seq<ServingCheque>): set<Id> {
    if |cs| == 0 then {} else Servers(cs[..|cs| - 1]) + {cs[|cs| - 1].server}
  }

  lemma {:induction false} ServersAre(cs: seq<ServingCheque>, k: Id)
    ensures k in Servers(cs) <==> exists c :: c in cs && c.server == k
  {
    if |cs| > 0 {
      var n := |cs| - 1;
      ServersAre(cs[..n], k);
      assert cs == cs[..n] + [cs[n]];
      assert cs[n] in cs;
    }
  }

  lemma {:induction false} SplitKeys(cs: seq<ServingCheque>, quota: nat)
    ensures Shares(cs, quota).Keys == Servers(cs)
  {
    if |cs| > 0 {
      SplitKeys(cs[..|cs| - 1], quota);
    }
  }

  /** Payments add up to the quota, or to everything owed. */
  lemma {:induction false} SplitPays(cs: seq<ServingCheque>, quota: nat)
    requires DistinctServers(cs)
    ensures Sum(Paid(Shares(cs, quota)), Servers(cs)) == Min(quota, Owed(cs))
  {
    if |cs| > 0 {
      var n := |cs| - 1;
      var k := cs[n].server;
      var before, out := Paid(Shares(cs[..n], quota)), Paid(Shares(cs, quota));
      SplitPays(cs[..n], quota);
      ServersAre(cs[..n], k);
      SumRemove(out, Servers(cs), k);
      assert Servers(cs) - {k} == Servers(cs[..n]);
      SumSame(before, out, Servers(cs[..n]));
    }
  }

  /** A cheque is paid anything only when every cheque before it is paid in full. */
  lemma {:induction false} SplitInOrder(cs: seq<ServingCheque>, quota: nat, i: nat, j: nat)
    requires DistinctServers(cs) && i < j < |cs|
    ensures cs[i].server in Shares(cs, quota) && cs[j].server in Shares(cs, quota)
    ensures Shares(cs, quota)[cs[j].server].0 > 0 ==> Shares(cs, quota)[cs[i].server].1 == 0
  {
    SplitAt(cs, quota, i);
    SplitAt(cs, quota, j);
    OwedGrows(cs, i, j);
  }

  /** Each share in closed form. */
  lemma {:induction false} SplitAt(cs: seq<ServingCheque>, quota: nat, i: nat)
    requires DistinctServers(cs) && i < |cs|
    ensures cs[i].server in Shares(cs, quota)
    ensures var paid := Min(quota - Min(quota, Owed(cs[..i])), cs[i].cumulative);
            Shares(cs, quota)[cs[i].server] == (paid, cs[i].cumulative - paid)
  {
    if i < |cs| - 1 {
      SplitAt(cs[..|cs| - 1], quota, i);
      assert cs[..|cs| - 1][..i] == cs[..i];
    }
  }

  lemma {:induction false} OwedGrows(cs: seq<ServingCheque>, i: nat, j: nat)
    requires i < j <= |cs|
    ensures Owed(cs[..i]) + cs[i].cumulative <= Owed(cs[..j])
  {
    assert cs[..j][..j - 1] == cs[..j - 1];
    if i < j - 1 {
      OwedGrows(cs, i, j - 1);
    }
  }

  // ---- the whole settlement ---------------------------------------------------------------------------

  lemma EarliestIsOrder()
    ensures TotalPreorder(Earliest())
  {
  }

  lemma {:induction false} OwedInsert(x: ServingCheque, s: seq<ServingCheque>)
    ensures Owed(Insert(x, s, Earliest())) == Owed(s) + x.cumulative
  {
    if |s| == 0 || !NotAfter(s[0], x) {
      OwedCons(x, s);
    } else {
      OwedInsert(x, s[1..]);
      OwedCons(s[0], Insert(x, s[1..], Earliest()));
      OwedCons(s[0], s[1..]);
      assert s == [s[0]] + s[1..];
    }
  }

  lemma {:induction false} OwedCons(x: ServingCheque, s: seq<ServingCheque>)
    ensures Owed([x] + s) == x.cumulative + Owed(s)
  {
    if |s| > 0 {
      OwedCons(x, s[..|s| - 1]);
      assert ([x] + s)[..|s|] == [x] + s[..|s| - 1];
    }
  }

  lemma {:induction false} OwedSorted(cs: seq<ServingCheque>)
    ensures Owed(Sort(cs, Earliest())) == Owed(cs)
  {
    if |cs| > 0 {
      OwedSorted(cs[..|cs| - 1]);
      OwedInsert(cs[|cs| - 1], Sort(cs[..|cs| - 1], Earliest()));
    }
  }

  /** Every cheque is split exactly into paid and subsidy, and only cheques are. */
  lemma SettlementCovers(cheques: seq<ServingCheque>, quota: nat, c: ServingCheque)
    requires DistinctServers(cheques)
    ensures c in cheques ==>
              c.server in Settle(cheques, quota)
              && Settle(cheques, quota)[c.server].0 + Settle(cheques, quota)[c.server].1 == c.cumulative
    ensures c.server in Settle(cheques, quota) ==> exists d :: d in cheques && d.server == c.server
  {
    var ordered := Sort(cheques, Earliest());
    EarliestIsOrder();
    SortCorrect(cheques, Earliest());
    SortKeepsDistinct(cheques, Server(), Earliest());
    SplitKeys(ordered, quota);
    ServersAre(ordered, c.server);
    if c in cheques {
      var i :| 0 <= i < |ordered| && ordered[i] == c;
      SplitAt(ordered, quota, i);
    }
  }

  /** The quota is used up, or everything owed is paid; never more. */
  lemma SettlementConserves(cheques: seq<ServingCheque>, quota: nat)
    requires DistinctServers(cheques)
    ensures Sum(Paid(Settle(cheques, quota)), Settle(cheques, quota).Keys) == Min(quota, Owed(cheques))
  {
    var ordered := Sort(cheques, Earliest());
    EarliestIsOrder();
    SortKeepsDistinct(cheques, Server(), Earliest());
    SplitKeys(ordered, quota);
    SplitPays(ordered, quota);
    OwedSorted(cheques);
  }

  /** First come, first paid: a cheque is paid anything only if every earlier one is paid in full. */
  lemma SettlementIsFirstCome(cheques: seq<ServingCheque>, quota: nat, a: ServingCheque, b: ServingCheque)
    requires DistinctServers(cheques) && a in cheques && b in cheques
    requires a.timestamp < b.timestamp || (a.timestamp == b.timestamp && a.server < b.server)
    ensures a.server in Settle(cheques, quota) && b.server in Settle(cheques, quota)
    ensures Settle(cheques, quota)[b.server].0 > 0 ==> Settle(cheques, quota)[a.server].1 == 0
  {
    var ordered := Sort(cheques, Earliest());
    EarliestIsOrder();
    SortCorrect(cheques, Earliest());
    SortKeepsDistinct(cheques, Server(), Earliest());
    var i :| 0 <= i < |ordered| && ordered[i] == a;
    var j :| 0 <= j < |ordered| && ordered[j] == b;
    assert j < i ==> Earliest()(b, a);
    if i < j {
      SplitInOrder(ordered, quota, i, j);
    } else {
      SameKey(cheques, Server(), a, b);
    }
  }

  /** The order the cheques come in does not matter: every node settles alike. */
  lemma SettlementIsAgreed(cheques: seq<ServingCheque>, other: seq<ServingCheque>, quota: nat)
    requires DistinctServers(cheques) && multiset(cheques) == multiset(other)
    ensures Settle(cheques, quota) == Settle(other, quota)
  {
    var a, b := Sort(cheques, Earliest()), Sort(other, Earliest());
    EarliestIsOrder();
    SortCorrect(cheques, Earliest());
    SortCorrect(other, Earliest());
    forall x, y | x in a && y in a && Earliest()(x, y) && Earliest()(y, x)
      ensures x == y
    {
      SameKey(cheques, Server(), x, y);
    }
    SortedUnique(a, b, Earliest());
  }
}

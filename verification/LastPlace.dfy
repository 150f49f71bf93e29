/** A network in which the asker does stand in the last place of its own lookup: the exception is real. */
module LastPlace {
  import opened Bits
  import opened Options
  import opened Sorting
  import opened Galois
  import opened Keys
  import opened Routing
  import opened Lookup
  import opened Reach

  /** The key whose number is v. */
  function At(v: Byte): Key {
    seq(WIDTH - 1, _ => 0) + [v]
  }

  function C(v: Byte): Contact {
    Contact(At(v), 0)
  }

  /** The n contacts numbered from lo. */
  function Line(lo: nat, n: nat): (s: seq<Contact>)
    requires lo + n <= 256
    ensures |s| == n
  {
    seq(n, i requires 0 <= i < n => C(lo + i))
  }

  lemma {:induction false} PaddedValue(n: nat, v: Byte)
    ensures Value(seq(n, _ => 0) + [v]) == v
  {
    var s := seq(n, _ => 0) + [v];
    if n == 0 {
      assert s == [v] && s[1..] == [];
    } else {
      PaddedValue(n - 1, v);
      assert s[1..] == seq(n - 1, _ => 0) + [v];
    }
  }

  lemma NumericDistance(a: Byte, b: Byte)
    ensures Value(Distance(At(a), At(b))) == Xor(a, b)
    ensures Far(At(0), At(a)) == a
  {
    PaddedValue(WIDTH - 1, a);
    PaddedValue(WIDTH - 1, b);
    PaddedValue(WIDTH - 1, 0);
    ValueXor(At(a), At(b), Distance(At(a), At(b)));
    ValueXor(At(a), At(0), Distance(At(a), At(0)));
    XorZero(a);
  }

  lemma DifferentNumbers(a: Byte, b: Byte)
    requires a != b
    ensures At(a) != At(b)
  {
    assert At(a)[WIDTH - 1] == a && At(b)[WIDTH - 1] == b;
  }

  lemma UpperBucket(a: Byte, b: Byte)
    requires a < 32 <= b < 64
    ensures BucketIndex(At(a), At(b)) == Some(5)
  {
    assert Pow2(5) == 32 && Pow2(6) == 64;
    XorTopBit(a, b, 5);
    NumericDistance(a, b);
    BucketIndexCorrect(At(a), At(b), 5);
  }

  // ---- the network --------------------------------------------------------------------------------------

  /** Nineteen contacts near the target; the one the lookup will miss; the asker and nineteen more beyond. */
  function Near(): seq<Contact> {
    Line(1, 19)
  }

  function Block(): seq<Contact> {
    Line(33, 20)
  }

  const MISSED: Contact := C(32)
  const ASKER: Contact := C(33)

  /** The order in which every table met everyone. */
  function Met(): seq<Contact> {
    Block() + Near() + [MISSED]
  }

  /** Who is who: by number, 1 to 19, 32, and 33 to 52. */
  lemma NumberOf(c: Contact) returns (v: Byte)
    requires c in Met()
    ensures c == C(v) && Far(At(0), c.id) == v
    ensures (c in Near() <==> v <= 19) && (c in Block() <==> v >= 33) && (c == MISSED <==> v == 32)
  {
    var met := Met();
    var i :| 0 <= i < |met| && met[i] == c;
    v := if i < 20 then 33 + i else if i < 39 then i - 19 else 32;
    NumericDistance(v, 0);
    NearNumbers(c, v);
    BlockNumbers(c, v);
    MissedNumber(c, v);
  }

  lemma MissedNumber(c: Contact, v: Byte)
    requires c == C(v)
    ensures c == MISSED <==> v == 32
  {
    if v != 32 {
      DifferentNumbers(v, 32);
    }
  }

  lemma NearNumbers(c: Contact, v: Byte)
    requires c == C(v)
    ensures c in Near() <==> 1 <= v <= 19
  {
    if c in Near() {
      var i :| 0 <= i < 19 && Near()[i] == c;
      if v != i + 1 {
        DifferentNumbers(v, i + 1);
      }
    }
    if 1 <= v <= 19 {
      assert Near()[v - 1] == c;
    }
  }

  lemma BlockNumbers(c: Contact, v: Byte)
    requires c == C(v)
    ensures c in Block() <==> 33 <= v <= 52
  {
    if c in Block() {
      var i :| 0 <= i < 20 && Block()[i] == c;
      if v != i + 33 {
        DifferentNumbers(v, i + 33);
      }
    }
    if 33 <= v <= 52 {
      assert Block()[v - 33] == c;
    }
  }

  lemma LineDistinct(lo: nat, n: nat)
    requires lo + n <= 256
    ensures DistinctIds(Line(lo, n))
  {
    var s := Line(lo, n);
    forall i, j | 0 <= i < j < |s|
      ensures Named()(s[i]) != Named()(s[j])
    {
      assert s[i] == C(lo + i) && s[j] == C(lo + j);
      DifferentNumbers(lo + i, lo + j);
    }
  }

  lemma MetDistinct()
    ensures DistinctIds(Met())
  {
    var met := Met();
    forall i, j | 0 <= i < j < |met|
      ensures Named()(met[i]) != Named()(met[j])
    {
      var a := if i < 20 then 33 + i else i - 19;
      var b := if j < 20 then 33 + j else if j < 39 then j - 19 else 32;
      assert met[i] == C(a) && met[j] == C(b);
      DifferentNumbers(a, b);
    }
  }

  // ---- the tables of the near ones do not hold the missed one -------------------------------------------

  /** A bucket's worth of contacts of one bucket fills it, with exactly them. */
  lemma FullAfter(self: Key, cs: seq<Contact>, j: nat, c: Contact)
    requires DistinctIds(cs) && |cs| == K && (forall d :: d in cs ==> BucketIndex(self, d.id) == Some(j)) && c in cs
    ensures j < BUCKETS && |InsertedAll(self, cs)[j]| == K && c in All(InsertedAll(self, cs))
  {
    var b := InsertedAll(self, cs);
    MeetingStocks(self, cs);
    assert BucketIndex(self, c.id) == Some(j);
    assert BucketOk(self, b[j], j);
    if |b[j]| < K {
      forall d | d in cs
        ensures d in b[j]
      {
        assert BucketIndex(self, d.id) == Some(j);
        InOwnBucket(self, b, d);
      }
      NoMore(cs, b[j], Named());
    }
    forall d | d in b[j]
      ensures d in cs && d in All(b)
    {
      AllMembers(b, d);
    }
    AllOf(b[j], cs, Named(), c);
  }

  /** Later meetings leave a full bucket full and displace nobody. */
  lemma {:induction false} StaysAfter(self: Key, cs: seq<Contact>, more: seq<Contact>, j: nat, c: Contact)
    requires DistinctIds(cs + more) && j < BUCKETS && c in cs
    requires |InsertedAll(self, cs)[j]| == K && c in All(InsertedAll(self, cs))
    ensures |InsertedAll(self, cs + more)[j]| == K && c in All(InsertedAll(self, cs + more))
  {
    if |more| == 0 {
      assert cs + more == cs;
    } else {
      var n := |more| - 1;
      var all, before := cs + more, cs + more[..n];
      assert all[..|all| - 1] == before && all == before + [more[n]];
      StaysAfter(self, cs, more[..n], j, c);
      MeetingStocks(self, before);
      InsertKeepsFull(self, InsertedAll(self, before), more[n], j);
      InsertedMembers(self, InsertedAll(self, before), more[n], c);
      LastIsNew(before, more[n], c);
    }
  }

  lemma LastIsNew(before: seq<Contact>, last: Contact, c: Contact)
    requires DistinctIds(before + [last]) && c in before
    ensures c.id != last.id
  {
    var i :| 0 <= i < |before| && before[i] == c;
    var all := before + [last];
    assert all[i] == c && all[|before|] == last;
    assert Named()(all[i]) != Named()(all[|before|]);
  }

  lemma NotYetHeld(self: Key, cs: seq<Contact>, x: Contact)
    requires DistinctIds(cs) && DistinctIds(cs + [x]) && x.id != self
    requires |InsertedAll(self, cs)[BucketIndex(self, x.id).value]| == K
    ensures !HasRoom(self, InsertedAll(self, cs), x.id)
  {
    var b := InsertedAll(self, cs);
    MeetingStocks(self, cs);
    var bucket := b[BucketIndex(self, x.id).value];
    var p := Position(bucket, x.id);
    if p < |bucket| {
      AllMembers(b, bucket[p]);
      LastIsNew(cs, x, bucket[p]);
    }
  }

  /** Meeting someone new when their bucket is full changes nothing. */
  lemma NoRoomLeft(self: Key, cs: seq<Contact>, x: Contact)
    requires DistinctIds(cs) && DistinctIds(cs + [x]) && x.id != self
    requires |InsertedAll(self, cs)[BucketIndex(self, x.id).value]| == K
    ensures x !in All(InsertedAll(self, cs + [x]))
  {
    NotYetHeld(self, cs, x);
    MeetingStocks(self, cs);
    assert (cs + [x])[..|cs|] == cs;
    InsertedMembers(self, InsertedAll(self, cs), x, x);
  }

  function Table(self: Key): Buckets {
    InsertedAll(self, Met())
  }

  lemma BlockFills(c: Contact, v: Byte)
    requires 1 <= v <= 19 && c == C(v)
    ensures |InsertedAll(c.id, Block())[5]| == K && ASKER in All(InsertedAll(c.id, Block()))
  {
    var block := Block();
    forall d | d in block
      ensures BucketIndex(c.id, d.id) == Some(5)
    {
      var k :| 0 <= k < 20 && block[k] == d;
      UpperBucket(v, k + 33);
    }
    LineDistinct(33, 20);
    assert block[0] == ASKER;
    FullAfter(c.id, block, 5, ASKER);
  }

  lemma NearTable(c: Contact)
    requires c in Near()
    ensures MISSED !in All(Table(c.id)) && ASKER in All(Table(c.id))
  {
    var i :| 0 <= i < 19 && Near()[i] == c;
    var rest := Block() + Near();
    BlockFills(c, i + 1);
    RestDistinct();
    assert Block()[0] == ASKER;
    StaysAfter(c.id, Block(), Near(), 5, ASKER);
    UpperBucket(i + 1, 32);
    DifferentNumbers(i + 1, 32);
    MetDistinct();
    NoRoomLeft(c.id, rest, MISSED);
    AskerStays(c.id, rest);
  }

  lemma AskerStays(self: Key, rest: seq<Contact>)
    requires DistinctIds(rest) && ASKER in All(InsertedAll(self, rest))
    ensures ASKER in All(InsertedAll(self, rest + [MISSED]))
  {
    DifferentNumbers(33, 32);
    MeetingStocks(self, rest);
    assert (rest + [MISSED])[..|rest|] == rest;
    InsertedMembers(self, InsertedAll(self, rest), MISSED, ASKER);
  }

  lemma RestDistinct()
    ensures DistinctIds(Block() + Near())
  {
    MetDistinct();
    var rest := Block() + Near();
    forall i, j | 0 <= i < j < |rest|
      ensures Named()(rest[i]) != Named()(rest[j])
    {
      assert Met()[i] == rest[i] && Met()[j] == rest[j];
      assert Named()(Met()[i]) != Named()(Met()[j]);
    }
  }

  // ---- the lookup ---------------------------------------------------------------------------------------

  /** Everyone but the asker answers from its table; the asker names nobody. */
  function Net(): Network {
    (i: nat, c: Contact) => if c.id == ASKER.id then [] else TopK(All(Table(c.id)), At(0), K)
  }

  function AllTables(): Tables {
    (i: nat, c: Contact) => Table(c.id)
  }

  lemma NetAnswers()
    ensures Answering(Net(), AllTables(), Met(), At(0), ASKER.id)
  {
    MetDistinct();
    forall i: nat, c | c in Met() && c.id != ASKER.id
      ensures Stocked(c.id, AllTables()(i, c), Met()) && Net()(i, c) == TopK(All(AllTables()(i, c)), At(0), K)
    {
      MeetingStocks(c.id, Met());
    }
  }

  lemma NearAnswer(c: Contact, x: Contact)
    requires c in Near() && x in Net()(0, c)
    ensures x in Met() && x != MISSED
  {
    MetDistinct();
    MeetingStocks(c.id, Met());
    AnswerIsNearest(c.id, Table(c.id), Met(), At(0));
    NearTable(c);
  }

  lemma NearIsNotAsker(c: Contact)
    requires c in Near()
    ensures c.id != ASKER.id && c in Met()
  {
    var i :| 0 <= i < 19 && Near()[i] == c;
    DifferentNumbers(i + 1, 33);
  }

  /** Whoever holds the asker but not the missed one names the asker: only the near ones are nearer, and they
      are too few. */
  lemma TooFewNearer(held: seq<Contact>, answer: seq<Contact>)
    requires DistinctIds(held) && DistinctIds(answer) && Nearest(answer, held, At(0), K) && ASKER in held
    requires forall d :: d in held ==> d in Met() && d != MISSED
    ensures ASKER in answer
  {
    if ASKER !in answer {
      if |answer| < K {
        AllOf(answer, held, Named(), ASKER);
      } else {
        forall d | d in answer
          ensures d in Near()
        {
          NamedIsNearer(held, answer, At(0), ASKER, d);
          NearerThanAsker(d);
        }
        NoMore(answer, Near(), Named());
      }
    }
  }

  lemma NamedIsNearer(held: seq<Contact>, answer: seq<Contact>, target: Key, c: Contact, d: Contact)
    requires Nearest(answer, held, target, K) && c in held && c !in answer && d in answer
    ensures Far(target, d.id) < Far(target, c.id)
  {
    var i :| 0 <= i < |answer| && answer[i] == d;
  }

  lemma NearerThanAsker(d: Contact)
    requires d in Met() && d != MISSED && Far(At(0), d.id) < Far(At(0), ASKER.id)
    ensures d in Near()
  {
    NumericDistance(33, 0);
    var v := NumberOf(d);
  }

  lemma NamesAsker(c: Contact)
    requires c in Near()
    ensures ASKER in Net()(0, c)
  {
    var table := Table(c.id);
    MetDistinct();
    MeetingStocks(c.id, Met());
    AnswerIsNearest(c.id, table, Met(), At(0));
    NearTable(c);
    NearIsNotAsker(c);
    TooFewNearer(All(table), TopK(All(table), At(0), K));
  }

  lemma {:induction false} ListOf(known: Known) returns (pool: seq<Contact>)
    requires Keyed(known)
    ensures Lists(pool, known)
    decreases |known|
  {
    if |known| == 0 {
      pool := [];
    } else {
      var k :| k in known;
      var rest := known - {k};
      assert rest.Keys == known.Keys - {k};
      pool := ListOf(rest);
      pool := pool + [known[k]];
    }
  }

  /** All who become known: the near ones, and whom they name. */
  function AllKnown(): Known {
    Noted(Noted(map[], Near()), Answers(Net(), 0, Near()))
  }

  lemma KnownIsMet(k: Key)
    requires k in AllKnown()
    ensures AllKnown()[k] in Met() && AllKnown()[k] != MISSED && AllKnown()[k].id == k
  {
    var first, answers := Noted(map[], Near()), Answers(Net(), 0, Near());
    FirstKnown();
    NotedKeys(first, answers);
    NotedFrom(first, answers, k);
    var c := AllKnown()[k];
    if c in answers {
      AnswersAre(Net(), 0, Near(), c);
      var near :| near in Near() && c in Net()(0, near);
      NearAnswer(near, c);
    } else {
      NotedFrom(map[], Near(), k);
      NearIsNotMissed(c);
    }
  }

  lemma KnownAs(c: Contact)
    requires c in Near() + [ASKER]
    ensures c.id in AllKnown() && AllKnown()[c.id] == c
  {
    var first, answers := Noted(map[], Near()), Answers(Net(), 0, Near());
    NotedKeys(map[], Near());
    NotedKeys(first, answers);
    AskerIsNamed();
    assert c in Near() ==> c.id in Ids(Near());
    assert ASKER.id in Ids(answers);
    KnownIsMet(c.id);
    MetDistinct();
    assert ASKER == Block()[0];
    SameKey(Met(), Named(), AllKnown()[c.id], c);
  }

  /** A round in which nobody is named leaves what is known as it was. */
  lemma SilentRound(known: Known, start: seq<Contact>, queried: set<Key>, asked: Asked, net: Network,
                    round: nat, batch: seq<Contact>)
    requires Explored(known, start, queried, asked, net) && Grounded(start, asked, net, round)
    requires Answers(net, round, batch) == [] && forall c :: c in batch ==> c.id in known && known[c.id] == c
    ensures Explored(known, start, queried + Ids(batch), asked + AskedIn(round, batch), net)
    ensures Grounded(start, asked + AskedIn(round, batch), net, round + 1)
  {
    RoundExplores(known, start, queried, asked, net, round, batch);
    RoundGrounded(known, start, queried, asked, net, round, batch);
  }

  /** Two rounds: the start is asked, and then one more contact, who names nobody. */
  lemma TwoRounds(start: seq<Contact>, net: Network, last: Contact)
    requires var first := Noted(map[], start); var known := Noted(first, Answers(net, 0, start));
             && Explored(first, start, {}, {}, net) && Grounded(start, {}, net, 0)
             && (forall c :: c in start ==> c.id in first && first[c.id] == c)
             && last.id in known && known[last.id] == last && Answers(net, 1, [last]) == []
    ensures Explored(Noted(Noted(map[], start), Answers(net, 0, start)), start, Ids(start) + Ids([last]),
                     AskedIn(0, start) + AskedIn(1, [last]), net)
    ensures Grounded(start, AskedIn(0, start) + AskedIn(1, [last]), net, 2)
  {
    var first := Noted(map[], start);
    RoundExplores(first, start, {}, {}, net, 0, start);
    RoundGrounded(first, start, {}, {}, net, 0, start);
    assert {} + Ids(start) == Ids(start) && {} + AskedIn(0, start) == AskedIn(0, start);
    SilentRound(Noted(first, Answers(net, 0, start)), start, Ids(start), AskedIn(0, start), net, 1, [last]);
  }

  lemma AskerNamesNobody()
    ensures Answers(Net(), 1, [ASKER]) == []
  {
    assert [ASKER][..0] == [] && Answers(Net(), 1, []) == [];
  }

  lemma NearIsNotMissed(c: Contact)
    requires c in Near()
    ensures c in Met() && c != MISSED
  {
    var v := NumberOf(c);
  }

  lemma FirstKnown()
    ensures var first := Noted(map[], Near());
            && Explored(first, Near(), {}, {}, Net()) && Grounded(Near(), {}, Net(), 0)
            && forall c :: c in Near() ==> c.id in first && first[c.id] == c
  {
    var first := Noted(map[], Near());
    NotedKeys(map[], Near());
    LineDistinct(1, 19);
    forall k | k in first
      ensures first[k] in Near()
    {
      NotedFrom(map[], Near(), k);
    }
    forall c | c in Near()
      ensures c.id in first && first[c.id] == c
    {
      assert c.id in Ids(Near());
      SameKey(Near(), Named(), first[c.id], c);
    }
  }

  lemma AskerIsNamed()
    ensures ASKER in Answers(Net(), 0, Near())
  {
    assert Near()[0] in Near();
    NamesAsker(Near()[0]);
    AnswersAre(Net(), 0, Near(), ASKER);
  }

  lemma Beyond(c: Contact, bound: Byte)
    requires 32 <= bound <= 33 && c in Met() && c !in Near() && c != C(bound) && (bound == 33 ==> c != MISSED)
    ensures Far(At(0), c.id) > bound
  {
    var v := NumberOf(c);
  }

  lemma ByNumber(s: seq<Contact>, pool: seq<Contact>, bound: Byte)
    requires s == Near() + [C(bound)] && 32 <= bound <= 33
    requires (forall c :: c in s ==> c in pool) && DistinctIds(pool)
    requires forall c :: c in pool ==> c in Met() && (bound == 33 ==> c != MISSED)
    ensures Nearest(s, pool, At(0), K)
  {
    forall i | 0 <= i < 20
      ensures Far(At(0), s[i].id) == if i < 19 then i + 1 else bound
    {
      NumericDistance(if i < 19 then i + 1 else bound, 0);
    }
    assert s[19] in s;
    forall c, i | c in pool && c !in s && 0 <= i < |s|
      ensures Far(At(0), s[i].id) < Far(At(0), c.id)
    {
      Beyond(c, bound);
    }
    forall i, j | 0 <= i < j < |s|
      ensures Named()(s[i]) != Named()(s[j])
    {
      assert Far(At(0), s[i].id) < Far(At(0), s[j].id);
    }
    NoMore(s, pool, Named());
  }

  lemma PoolIs(pool: seq<Contact>)
    requires Lists(pool, AllKnown())
    ensures forall c :: c in Near() + [ASKER] ==> c in pool
    ensures forall c :: c in pool ==> c in Met() && c != MISSED
  {
    forall c | c in Near() + [ASKER]
      ensures c in pool
    {
      KnownAs(c);
    }
    forall c | c in pool
      ensures c in Met() && c != MISSED
    {
      KnownIsMet(c.id);
    }
  }

  /** Forty contacts, all but the asker with stocked tables: a lookup that ends with the asker in the last place,
      where the twentieth nearest contact belongs. */
  lemma AskerStandsLast() returns (r: seq<Contact>, pool: seq<Contact>, queried: set<Key>, asked: Asked,
                                   best: seq<Contact>)
    ensures Ended(r, pool, AllKnown(), Near(), queried, asked, Net(), 2, At(0))
    ensures Answering(Net(), AllTables(), Met(), At(0), ASKER.id) && DistinctIds(Met())
    ensures forall c :: c in Near() ==> c in Met() && c.id != ASKER.id
    ensures Nearest(best, Met(), At(0), K) && |r| == K && r[K - 1] == ASKER && r != best
  {
    NetAnswers();
    MetDistinct();
    FirstKnown();
    KnownAs(ASKER);
    AskerNamesNobody();
    TwoRounds(Near(), Net(), ASKER);
    queried, asked := Ids(Near()) + Ids([ASKER]), AskedIn(0, Near()) + AskedIn(1, [ASKER]);
    pool := ListOf(AllKnown());
    PoolIs(pool);
    r, best := Near() + [ASKER], Near() + [MISSED];
    forall c | c in Near()
      ensures c in Met() && c.id != ASKER.id
    {
      NearIsNotAsker(c);
    }
    forall c | c in r
      ensures c.id in queried
    {
      assert c in Near() ==> c.id in Ids(Near());
      assert ASKER.id in Ids([ASKER]);
    }
    ByNumber(r, pool, 33);
    ByNumber(best, Met(), 32);
    DifferentNumbers(33, 32);
    assert r[19] != best[19];
  }
}

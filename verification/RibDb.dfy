/**
 * ribdb.py: the older table, which keeps each key in one of four dictionaries. The operations are given on
 * values, and the class at the end updates its dictionaries in place. Values of withdraw_rib are always
 * None, so it is a set here. Line 134 is read as a comparison, and lock and unlock, which the class lacks,
 * are left out.
 */
module RibDb {
  import opened Types

  datatype Four<K, V> = Four(unsent: map<K, V>, sent: map<K, V>, withdrawn: set<K>, refresh: map<K, V>)

  function Empty<K, V>(): Four<K, V> {
    Four(map[], map[], {}, map[])
  }

  /** An update goes into unsent; the key is deleted from the first other dictionary that has it. */
  function AtomicUpdate<K, V>(s: Four<K, V>, k: K, x: V): Four<K, V> {
    var s1 := s.(unsent := s.unsent[k := x]);
    if k in s.sent then s1.(sent := s.sent - {k})
    else if k in s.withdrawn then s1.(withdrawn := s.withdrawn - {k})
    else s1.(refresh := s.refresh - {k})
  }

  /** A withdraw deletes the key from the first of sent, unsent, refresh; only sent leaves something to send. */
  function AtomicWithdraw<K, V>(s: Four<K, V>, k: K): Four<K, V> {
    if k in s.sent then s.(sent := s.sent - {k}, withdrawn := s.withdrawn + {k})
    else if k in s.unsent then s.(unsent := s.unsent - {k})
    else s.(refresh := s.refresh - {k})
  }

  function Refresh<K, V>(s: Four<K, V>): Four<K, V> {
    Four(map[], map[], {}, s.refresh + s.sent + s.unsent)
  }

  /** The assertion at the end of refresh. */
  predicate SizeAsserted<K, V>(s: Four<K, V>) {
    |Refresh(s).refresh| == |s.sent| + |s.unsent| + |s.refresh|
  }

  // ---------- one key, one dictionary ----------

  predicate Disjoint<K, V>(s: Four<K, V>) {
    && s.unsent.Keys !! s.sent.Keys && s.unsent.Keys !! s.withdrawn && s.unsent.Keys !! s.refresh.Keys
    && s.sent.Keys !! s.withdrawn && s.sent.Keys !! s.refresh.Keys && s.withdrawn !! s.refresh.Keys
  }

  /** The plain map that the four dictionaries stand for. */
  function Plain<K, V>(s: Four<K, V>): map<K, V> {
    s.refresh + s.sent + s.unsent
  }

  lemma UpdateKeepsDisjoint<K, V>(s: Four<K, V>, k: K, x: V)
    requires Disjoint(s)
    ensures Disjoint(AtomicUpdate(s, k, x))
  {}

  lemma UpdateRefinesPlain<K, V>(s: Four<K, V>, k: K, x: V)
    requires Disjoint(s)
    ensures Disjoint(AtomicUpdate(s, k, x)) && Plain(AtomicUpdate(s, k, x)) == Plain(s)[k := x]
  {
    UpdateKeepsDisjoint(s, k, x);
    SameMap(Plain(AtomicUpdate(s, k, x)), Plain(s)[k := x]);
  }

  lemma WithdrawKeepsDisjoint<K, V>(s: Four<K, V>, k: K)
    requires Disjoint(s)
    ensures Disjoint(AtomicWithdraw(s, k))
  {}

  lemma WithdrawRefinesPlain<K, V>(s: Four<K, V>, k: K)
    requires Disjoint(s)
    ensures Disjoint(AtomicWithdraw(s, k)) && Plain(AtomicWithdraw(s, k)) == Plain(s) - {k}
  {
    WithdrawKeepsDisjoint(s, k);
    SameMap(Plain(AtomicWithdraw(s, k)), Plain(s) - {k});
  }

  lemma RefreshRefinesPlain<K, V>(s: Four<K, V>)
    requires Disjoint(s)
    ensures Disjoint(Refresh(s)) && Plain(Refresh(s)) == Plain(s)
  {}

  lemma UnionCard<T>(a: set<T>, b: set<T>)
    ensures |a + b| == |a| + |b| - |a * b|
  {
    assert a + b == a + (b - a) && b == (b - a) + a * b;
  }

  /** The size assertion in refresh holds exactly when no key is in two of the three dictionaries it merges. */
  lemma SizeAssertionHolds<K, V>(s: Four<K, V>)
    ensures SizeAsserted(s) <==>
      s.sent.Keys !! s.unsent.Keys && s.sent.Keys !! s.refresh.Keys && s.unsent.Keys !! s.refresh.Keys
  {
    var a, b, c := s.refresh.Keys, s.sent.Keys, s.unsent.Keys;
    UnionCard(a, b);
    UnionCard(a + b, c);
    assert Refresh(s).refresh.Keys == a + b + c;
    if (a + b) * c == {} {
      assert a !! c && b !! c by { assert forall k :: k in c ==> k !in (a + b) * c ==> k !in a + b; }
    }
  }

  // ---------- a reader, as the comments describe one ----------

  datatype Op<K, V> =
    | DoUpdate(k: K, x: V)
    | DoWithdraw(k: K)
    | DoRefresh
    | ReadUnsent(k: K)
    | ReadRefresh(k: K)
    | ReadWithdrawn(k: K)

  /** The table and what the reader has made of what it read. */
  datatype Config<K, V> = Config(four: Four<K, V>, table: map<K, V>)

  predicate Legal<K, V>(s: Four<K, V>, op: Op<K, V>) {
    match op
    case ReadUnsent(k) => k in s.unsent
    case ReadRefresh(k) => k in s.refresh
    case ReadWithdrawn(k) => k in s.withdrawn
    case _ => true
  }

  /** Reading an item marks it as sent, reading a delete discards it; a refresh restarts the reader. */
  function Step<K, V>(c: Config<K, V>, op: Op<K, V>): Config<K, V>
    requires Legal(c.four, op)
  {
    var s := c.four;
    match op
    case DoUpdate(k, x) => c.(four := AtomicUpdate(s, k, x))
    case DoWithdraw(k) => c.(four := AtomicWithdraw(s, k))
    case DoRefresh => Config(Refresh(s), map[])
    case ReadUnsent(k) =>
      Config(s.(unsent := s.unsent - {k}, sent := s.sent[k := s.unsent[k]]), c.table[k := s.unsent[k]])
    case ReadRefresh(k) =>
      Config(s.(refresh := s.refresh - {k}, sent := s.sent[k := s.refresh[k]]), c.table[k := s.refresh[k]])
    case ReadWithdrawn(k) => Config(s.(withdrawn := s.withdrawn - {k}), c.table - {k})
  }

  predicate LegalRun<K, V>(c: Config<K, V>, ops: seq<Op<K, V>>)
    decreases |ops|
  {
    ops == [] || (Legal(c.four, ops[0]) && LegalRun(Step(c, ops[0]), ops[1..]))
  }

  function Run<K, V>(c: Config<K, V>, ops: seq<Op<K, V>>): Config<K, V>
    requires LegalRun(c, ops)
    decreases |ops|
  {
    if ops == [] then c else Run(Step(c, ops[0]), ops[1..])
  }

  /** What the reader holds although no dictionary mentions it: nothing will ever tell it to let go. */
  function Stale<K, V>(c: Config<K, V>): set<K> {
    set k | k in c.table && k !in c.four.unsent && k !in c.four.sent && k !in c.four.withdrawn && k !in c.four.refresh
  }

  ghost predicate Invariant<K, V>(c: Config<K, V>) {
    && Disjoint(c.four)
    && (forall k :: k in c.four.sent ==> k in c.table && c.table[k] == c.four.sent[k])
    && (forall k :: k in c.four.withdrawn ==> k in c.table)
    && (forall k :: k in c.four.refresh ==> k !in c.table)
  }

  /** The keys an operation turns stale: one that is withdrawn while a newer value waits, unread. */
  function TurnedStale<K, V>(c: Config<K, V>, op: Op<K, V>): set<K> {
    if op.DoWithdraw? && op.k in c.four.unsent && op.k in c.table then {op.k} else {}
  }

  function Rescued<K, V>(c: Config<K, V>, op: Op<K, V>): set<K> {
    match op
    case DoUpdate(k, _) => {k}
    case DoRefresh => c.table.Keys
    case _ => {}
  }

  lemma StepKeepsInvariant<K, V>(c: Config<K, V>, op: Op<K, V>)
    requires Invariant(c) && Legal(c.four, op)
    ensures Invariant(Step(c, op))
  {}

  /** Exactly which keys are stale after any one step. */
  lemma StepStale<K, V>(c: Config<K, V>, op: Op<K, V>)
    requires Invariant(c) && Legal(c.four, op)
    ensures Stale(Step(c, op)) == Stale(c) - Rescued(c, op) + TurnedStale(c, op)
  {
    var stale, wanted := Stale(Step(c, op)), Stale(c) - Rescued(c, op) + TurnedStale(c, op);
    assert forall k :: k in stale <==> k in wanted;
  }

  lemma {:induction false} RunKeepsInvariant<K, V>(c: Config<K, V>, ops: seq<Op<K, V>>)
    requires Invariant(c) && LegalRun(c, ops)
    ensures Invariant(Run(c, ops)) && SizeAsserted(Run(c, ops).four)
    decreases |ops|
  {
    if ops == [] {
      SizeAssertionHolds(c.four);
    } else {
      StepKeepsInvariant(c, ops[0]);
      RunKeepsInvariant(Step(c, ops[0]), ops[1..]);
    }
  }

  /** The producer's calls applied to one plain map; reads and refreshes leave it alone. */
  function Told<K, V>(m: map<K, V>, ops: seq<Op<K, V>>): map<K, V>
    decreases |ops|
  {
    if ops == [] then m
    else
      match ops[0]
      case DoUpdate(k, x) => Told(m[k := x], ops[1..])
      case DoWithdraw(k) => Told(m - {k}, ops[1..])
      case _ => Told(m, ops[1..])
  }

  lemma StepRefinesPlain<K, V>(c: Config<K, V>, op: Op<K, V>)
    requires Disjoint(c.four) && Legal(c.four, op)
    ensures Plain(Step(c, op).four) ==
      match op {
        case DoUpdate(k, x) => Plain(c.four)[k := x]
        case DoWithdraw(k) => Plain(c.four) - {k}
        case _ => Plain(c.four)
      }
  {
    match op
    case DoUpdate(k, x) => UpdateRefinesPlain(c.four, k, x);
    case DoWithdraw(k) => WithdrawRefinesPlain(c.four, k);
    case DoRefresh => RefreshRefinesPlain(c.four);
    case _ => SameMap(Plain(Step(c, op).four), Plain(c.four));
  }

  /** In every reachable state the dictionaries are disjoint and together hold what one plain map would. */
  lemma {:induction false} RunRefinesPlain<K, V>(c: Config<K, V>, ops: seq<Op<K, V>>)
    requires Invariant(c) && LegalRun(c, ops)
    ensures Disjoint(Run(c, ops).four) && Plain(Run(c, ops).four) == Told(Plain(c.four), ops)
    decreases |ops|
  {
    if ops != [] {
      StepKeepsInvariant(c, ops[0]);
      StepRefinesPlain(c, ops[0]);
      RunRefinesPlain(Step(c, ops[0]), ops[1..]);
    }
  }

  // ---------- the keys a reader is left with, from the calls alone ----------

  /** The keys told and not withdrawn, those of them waiting, those the reader holds, and those lost to it. */
  datatype Ledger<K> = Ledger(live: set<K>, waiting: set<K>, held: set<K>, lost: set<K>)

  function Blank<K>(): Ledger<K> {
    Ledger({}, {}, {}, {})
  }

  /** A key is lost when it is withdrawn while the reader holds one value of it and another waits. */
  function Enter<K, V>(l: Ledger<K>, op: Op<K, V>): Ledger<K> {
    match op
    case DoUpdate(k, _) => Ledger(l.live + {k}, l.waiting + {k}, l.held, l.lost - {k})
    case DoWithdraw(k) =>
      Ledger(l.live - {k}, l.waiting - {k}, l.held, if k in l.waiting && k in l.held then l.lost + {k} else l.lost)
    case DoRefresh => Ledger(l.live, l.live, {}, {})
    case ReadUnsent(k) => l.(waiting := l.waiting - {k}, held := l.held + {k})
    case ReadRefresh(k) => l.(waiting := l.waiting - {k}, held := l.held + {k})
    case ReadWithdrawn(k) => l.(held := l.held - {k})
  }

  function Entered<K, V>(l: Ledger<K>, ops: seq<Op<K, V>>): Ledger<K>
    decreases |ops|
  {
    if ops == [] then l else Entered(Enter(l, ops[0]), ops[1..])
  }

  ghost predicate Accounts<K, V>(l: Ledger<K>, c: Config<K, V>) {
    && l.live == Plain(c.four).Keys
    && l.waiting == c.four.unsent.Keys + c.four.refresh.Keys
    && l.held == c.table.Keys
    && l.lost == Stale(c)
  }

  lemma LostIsStale<K, V>(l: Ledger<K>, c: Config<K, V>, op: Op<K, V>)
    requires Invariant(c) && Legal(c.four, op) && Accounts(l, c)
    ensures Enter(l, op).lost == Stale(Step(c, op))
  {
    StepStale(c, op);
    assert op.DoRefresh? ==> Stale(c) - c.table.Keys == {};
  }

  lemma WaitingIsQueued<K, V>(l: Ledger<K>, c: Config<K, V>, op: Op<K, V>)
    requires Invariant(c) && Legal(c.four, op) && Accounts(l, c)
    ensures var s := Step(c, op).four; Enter(l, op).waiting == s.unsent.Keys + s.refresh.Keys
  {}

  lemma HeldIsTable<K, V>(l: Ledger<K>, c: Config<K, V>, op: Op<K, V>)
    requires Legal(c.four, op) && Accounts(l, c)
    ensures Enter(l, op).held == Step(c, op).table.Keys
  {}

  lemma LiveIsPlain<K, V>(l: Ledger<K>, c: Config<K, V>, op: Op<K, V>)
    requires Disjoint(c.four) && Legal(c.four, op) && Accounts(l, c)
    ensures Enter(l, op).live == Plain(Step(c, op).four).Keys
  {
    StepRefinesPlain(c, op);
  }

  lemma StepAccounts<K, V>(l: Ledger<K>, c: Config<K, V>, op: Op<K, V>)
    requires Invariant(c) && Legal(c.four, op) && Accounts(l, c)
    ensures Accounts(Enter(l, op), Step(c, op))
  {
    LiveIsPlain(l, c, op);
    WaitingIsQueued(l, c, op);
    HeldIsTable(l, c, op);
    LostIsStale(l, c, op);
  }

  /** Over every run the ledger of the calls knows which keys wait, which the reader holds, and which are stale. */
  lemma {:induction false} RunAccounts<K, V>(l: Ledger<K>, c: Config<K, V>, ops: seq<Op<K, V>>)
    requires Invariant(c) && LegalRun(c, ops) && Accounts(l, c)
    ensures Accounts(Entered(l, ops), Run(c, ops))
    decreases |ops|
  {
    if ops != [] {
      StepKeepsInvariant(c, ops[0]);
      StepAccounts(l, c, ops[0]);
      RunAccounts(Enter(l, ops[0]), Step(c, ops[0]), ops[1..]);
    }
  }

  /**
   * After reading everything, the reader holds what the producer last told exactly when no key was lost:
   * withdrawn while held with a newer value waiting, and neither updated nor refreshed since.
   */
  lemma ReaderAgrees<K, V>(ops: seq<Op<K, V>>, c: Config<K, V>)
    requires LegalRun(Config(Empty(), map[]), ops) && Run(Config(Empty(), map[]), ops) == c
    requires c.four.unsent == map[] && c.four.withdrawn == {} && c.four.refresh == map[]
    ensures c.table == Told(map[], ops) <==> Entered(Blank(), ops).lost == {}
  {
    var start: Config<K, V> := Config(Empty(), map[]);
    RunKeepsInvariant(start, ops);
    RunRefinesPlain(start, ops);
    RunAccounts(Blank(), start, ops);
    assert Plain(start.four) == map[];
    if Stale(c) == {} {
      forall k | k in c.table ensures k in c.four.sent { assert k !in Stale(c); }
    } else {
      var k :| k in Stale(c);
      assert k in c.table && k !in Plain(c.four);
    }
  }

  /** Read, updated, then withdrawn before the update is read: nothing is left to send and the key stays. */
  lemma ReaderIsLeftStale<K, V>(k: K, x: V, y: V)
    ensures var ops := [DoUpdate(k, x), ReadUnsent(k), DoUpdate(k, y), DoWithdraw(k)];
      var start: Config<K, V> := Config(Empty(), map[]);
      LegalRun(start, ops) && Run(start, ops) == Config(Empty(), map[k := x])
  {
    var c0: Config<K, V> := Config(Empty(), map[]);
    var c1: Config<K, V> := Config(Four(map[k := x], map[], {}, map[]), map[]);
    var c2: Config<K, V> := Config(Four(map[], map[k := x], {}, map[]), map[k := x]);
    var c3: Config<K, V> := Config(Four(map[k := y], map[], {}, map[]), map[k := x]);
    var ops: seq<Op<K, V>> := [DoUpdate(k, x), ReadUnsent(k), DoUpdate(k, y), DoWithdraw(k)];
    assert Step(c0, ops[0]) == c1 && Step(c1, ops[1]) == c2 && Step(c2, ops[2]) == c3;
    assert Step(c3, ops[3]) == Config(Empty(), map[k := x]);
    var c4 := Step(c3, ops[3]);
    assert ops[3..][1..] == [] && LegalRun(c4, []) && Run(c4, []) == c4;
    assert ops[2..][1..] == ops[3..] && LegalRun(c3, ops[3..]) && Run(c3, ops[3..]) == c4;
    assert ops[1..][1..] == ops[2..] && LegalRun(c2, ops[2..]) && Run(c2, ops[2..]) == c4;
    assert LegalRun(c1, ops[1..]) && Run(c1, ops[1..]) == c4;
  }

  // ---------- the class ----------

  function Updates<K, V>(s: Four<K, V>, items: seq<(K, V)>): Four<K, V>
    decreases |items|
  {
    if items == [] then s else Updates(AtomicUpdate(s, items[0].0, items[0].1), items[1..])
  }

  function Withdraws<K, V>(s: Four<K, V>, ks: seq<K>): Four<K, V>
    decreases |ks|
  {
    if ks == [] then s else Withdraws(AtomicWithdraw(s, ks[0]), ks[1..])
  }

  function AssignAll<K, V>(m: map<K, V>, items: seq<(K, V)>): map<K, V>
    decreases |items|
  {
    if items == [] then m else AssignAll(m[items[0].0 := items[0].1], items[1..])
  }

  /** A list of updates assigns its items one after the other, so that the last one for a key counts. */
  lemma {:induction false} UpdatesRefinePlain<K, V>(s: Four<K, V>, items: seq<(K, V)>)
    requires Disjoint(s)
    ensures Disjoint(Updates(s, items)) && Plain(Updates(s, items)) == AssignAll(Plain(s), items)
    decreases |items|
  {
    if items != [] {
      UpdateRefinesPlain(s, items[0].0, items[0].1);
      UpdatesRefinePlain(AtomicUpdate(s, items[0].0, items[0].1), items[1..]);
    }
  }

  /** A list of withdraws deletes all its keys. */
  lemma {:induction false} WithdrawsRefinePlain<K, V>(s: Four<K, V>, ks: seq<K>)
    requires Disjoint(s)
    ensures Disjoint(Withdraws(s, ks)) && Plain(Withdraws(s, ks)) == Plain(s) - (set k | k in ks)
    decreases |ks|
  {
    if ks == [] {
      assert Plain(s) - {} == Plain(s) && (set k | k in ks) == {};
    } else {
      WithdrawRefinesPlain(s, ks[0]);
      WithdrawsRefinePlain(AtomicWithdraw(s, ks[0]), ks[1..]);
      assert (set k | k in ks) == {ks[0]} + (set k | k in ks[1..]) by { assert ks == [ks[0]] + ks[1..]; }
      SameMap(Plain(s) - {ks[0]} - (set k | k in ks[1..]), Plain(s) - (set k | k in ks));
    }
  }

  class RIBdb<K(==), V> {
    var unsentRib: map<K, V>
    var sentRib: map<K, V>
    var withdrawRib: set<K>
    var refreshRib: map<K, V>

    ghost function Value(): Four<K, V>
      reads this
    {
      Four(unsentRib, sentRib, withdrawRib, refreshRib)
    }

    constructor ()
      ensures Value() == Empty()
    {
      unsentRib, sentRib, withdrawRib, refreshRib := map[], map[], {}, map[];
    }

    method PutUnsent(k: K, x: V)
      modifies this
      ensures Value() == AtomicUpdate(old(Value()), k, x)
    {
      unsentRib := unsentRib[k := x];
      if k in sentRib {
        sentRib := sentRib - {k};
      } else if k in withdrawRib {
        withdrawRib := withdrawRib - {k};
      } else if k in refreshRib {
        refreshRib := refreshRib - {k};
      }
    }

    method Delete(k: K)
      modifies this
      ensures Value() == AtomicWithdraw(old(Value()), k)
    {
      if k in sentRib {
        sentRib := sentRib - {k};
        withdrawRib := withdrawRib + {k};
      } else if k in unsentRib {
        unsentRib := unsentRib - {k};
      } else if k in refreshRib {
        refreshRib := refreshRib - {k};
      }
    }

    method Update(items: seq<(K, V)>)
      modifies this
      ensures Value() == Updates(old(Value()), items)
    {
      assert items[0..] == items;
      for i := 0 to |items|
        invariant Updates(old(Value()), items) == Updates(Value(), items[i..])
      {
        assert items[i..][1..] == items[i + 1..];
        PutUnsent(items[i].0, items[i].1);
      }
    }

    method Withdraw(ks: seq<K>)
      modifies this
      ensures Value() == Withdraws(old(Value()), ks)
    {
      assert ks[0..] == ks;
      for i := 0 to |ks|
        invariant Withdraws(old(Value()), ks) == Withdraws(Value(), ks[i..])
      {
        assert ks[i..][1..] == ks[i + 1..];
        Delete(ks[i]);
      }
    }

    /** asserted is whether the assertion at the end passes. */
    method MergeForRefresh() returns (asserted: bool)
      modifies this
      ensures Value() == Refresh(old(Value())) && asserted == SizeAsserted(old(Value()))
    {
      var itemCount := |sentRib| + |unsentRib| + |refreshRib|;
      withdrawRib := {};
      var tmpRead, tmpUnread := sentRib, unsentRib;
      sentRib, unsentRib := map[], map[];
      refreshRib := refreshRib + tmpRead;
      refreshRib := refreshRib + tmpUnread;
      asserted := |refreshRib| == itemCount;
    }
  }
}

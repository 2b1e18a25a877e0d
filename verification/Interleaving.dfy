/**
 * A session that is still going on: blocks arrive while the consumers of the tables read them and ask for
 * refreshes. What a consumer holds when it is told that nothing is left depends on the messages alone.
 */
module Interleaving {
  import opened Types
  import opened Bytes
  import opened Framing
  import opened RibQueue
  import opened RibInvariant
  import opened RibAgreement
  import opened RibDrain
  import opened RibAsWritten
  import opened RibLedger
  import opened BmpSession
  import opened EndToEnd
  import U = BgpUpdate

  type PeerOp = Op<U.Attributes>
  type PeerConfig = Config<U.Attributes>

  /** A block is received, or the consumer of one peer reads from its table or asks for a refresh. */
  datatype Event = Receive(block: bytes) | Consume(key: Hash, op: PeerOp)

  /** Each peer's table with its consumer, the unfinished message, and whether the session still runs. */
  datatype World = World(peers: map<Hash, PeerConfig>, buf: bytes, running: bool)

  function Begin(): World {
    World(map[], [], true)
  }

  function States(w: World): Peers {
    map k | k in w.peers :: w.peers[k].state
  }

  function At(w: World, key: Hash): PeerConfig {
    if key in w.peers then w.peers[key] else Start()
  }

  /** recv returns no bytes only when the connection is closed. */
  ghost predicate Possible(env: Env, w: World, e: Event) {
    match e
    case Receive(block) => block != []
    case Consume(key, op) => key in w.peers && (op.DoGet? || op.DoRefresh?) && Legal(env.variant, w.peers[key], op)
  }

  /** The tables after messages were handled; their consumers have not moved. */
  function WithStates(w: World, next: Peers): map<Hash, PeerConfig> {
    map k | k in next :: At(w, k).(state := next[k])
  }

  function Arrive(env: Env, w: World, block: bytes): World {
    var d := Drain(w.buf + block);
    var (next, ok) := HandleAll(env, States(w), d.frames);
    World(WithStates(w, next), d.residue, ok && !d.bad)
  }

  /** A session that has ended on an exception receives nothing more; its tables can still be read. */
  ghost function Happen(env: Env, w: World, e: Event): World
    requires Possible(env, w, e)
  {
    match e
    case Receive(block) => if w.running then Arrive(env, w, block) else w
    case Consume(key, op) => w.(peers := w.peers[key := Step(env.variant, env.hash, w.peers[key], op)])
  }

  ghost predicate PossibleRun(env: Env, w: World, events: seq<Event>)
    decreases |events|
  {
    events == [] || (Possible(env, w, events[0]) && PossibleRun(env, Happen(env, w, events[0]), events[1..]))
  }

  ghost function Later(env: Env, w: World, events: seq<Event>): World
    requires PossibleRun(env, w, events)
    decreases |events|
  {
    if events == [] then w else Later(env, Happen(env, w, events[0]), events[1..])
  }

  function Stream(events: seq<Event>): bytes {
    if events == [] then []
    else (if events[0].Receive? then events[0].block else []) + Stream(events[1..])
  }

  /** The producer calls among the operations on a table. */
  function Produced(ops: seq<PeerOp>): seq<PeerOp> {
    if ops == [] then []
    else (if ops[0].DoUpdate? || ops[0].DoWithdraw? then [ops[0]] else []) + Produced(ops[1..])
  }

  // ---------- the run of one table ----------

  /** How many of the awaited messages an event completes, and what it leaves in the buffer. */
  function Completed(buf: bytes, e: Event, ms: seq<Msg>): (n: nat)
    ensures n <= |ms|
  {
    if e.Consume? then 0
    else
      var n := |Drain(buf + e.block).frames|;
      if n <= |ms| then n else |ms|
  }

  function Residue(buf: bytes, e: Event): bytes {
    if e.Consume? then buf else Drain(buf + e.block).residue
  }

  /** What an event means for one table: the calls of the messages it completes, or a read. */
  function EventOps(env: Env, buf: bytes, e: Event, ms: seq<Msg>, key: Hash): seq<PeerOp>
    requires AllSendable(env, ms)
  {
    if e.Receive? then PeerOps(env, ms[..Completed(buf, e, ms)], key)
    else if e.key == key then [e.op]
    else []
  }

  /** The calls that a peer's messages make and the reads of its consumer, in the order in which they come. */
  function PeerRun(env: Env, buf: bytes, events: seq<Event>, ms: seq<Msg>, key: Hash): seq<PeerOp>
    requires AllSendable(env, ms)
    decreases |events|
  {
    if events == [] then []
    else
      EventOps(env, buf, events[0], ms, key)
        + PeerRun(env, Residue(buf, events[0]), events[1..], ms[Completed(buf, events[0], ms)..], key)
  }

  // ---------- sequences of operations ----------

  lemma {:induction false} LeadsOn(env: Env, c: PeerConfig, ops: seq<PeerOp>, mid: PeerConfig, more: seq<PeerOp>,
                                   end: PeerConfig)
    requires Leads(env, c, ops, mid) && Leads(env, mid, more, end)
    ensures Leads(env, c, ops + more, end)
    decreases |ops|
  {
    if ops == [] {
      EmptyIsNeutral(more);
    } else {
      LeadsOn(env, Step(env.variant, env.hash, c, ops[0]), ops[1..], mid, more, end);
      assert (ops + more)[1..] == ops[1..] + more;
    }
  }

  lemma {:induction false} EnteredAppend(l: Ledger<U.Attributes>, ops: seq<PeerOp>, more: seq<PeerOp>)
    ensures Entered(l, ops + more) == Entered(Entered(l, ops), more)
    decreases |ops|
  {
    if ops == [] {
      EmptyIsNeutral(more);
    } else {
      EnteredAppend(Enter(l, ops[0]), ops[1..], more);
      assert (ops + more)[1..] == ops[1..] + more;
    }
  }

  lemma {:induction false} ProducedAppend(ops: seq<PeerOp>, more: seq<PeerOp>)
    ensures Produced(ops + more) == Produced(ops) + Produced(more)
    decreases |ops|
  {
    if ops == [] {
      EmptyIsNeutral(more);
      EmptyIsNeutral(Produced(more));
    } else {
      ProducedAppend(ops[1..], more);
      assert (ops + more)[1..] == ops[1..] + more;
      Associate(if ops[0].DoUpdate? || ops[0].DoWithdraw? then [ops[0]] else [], Produced(ops[1..]), Produced(more));
    }
  }

  lemma {:induction false} OpsForAppend(calls: seq<Call>, more: seq<Call>, key: Hash)
    ensures OpsFor(calls + more, key) == OpsFor(calls, key) + OpsFor(more, key)
    decreases |calls|
  {
    if calls == [] {
      EmptyIsNeutral(more);
      EmptyIsNeutral(OpsFor(more, key));
    } else {
      OpsForAppend(calls[1..], more, key);
      assert (calls + more)[1..] == calls[1..] + more;
      Associate(OpsOfCall(calls[0], key), OpsFor(calls[1..], key), OpsFor(more, key));
    }
  }

  lemma {:induction false} OpsAreProduced(calls: seq<Call>, key: Hash)
    ensures Produced(OpsFor(calls, key)) == OpsFor(calls, key)
    decreases |calls|
  {
    if calls != [] {
      var two, rest := OpsOfCall(calls[0], key), OpsFor(calls[1..], key);
      OpsAreProduced(calls[1..], key);
      ProducedAppend(two, rest);
      if two != [] { assert two[1..] == [two[1]] && two[1..][1..] == []; }
    }
  }

  /** What was said last does not depend on when the table was read. */
  lemma {:induction false} ReadsSayNothing(said: map<Prefix, Option<U.Attributes>>, ops: seq<PeerOp>)
    ensures LastSaid(said, Produced(ops)) == LastSaid(said, ops)
    decreases |ops|
  {
    if ops != [] {
      var rest := Produced(ops[1..]);
      ReadsSayNothing(Say(said, ops[0]), ops[1..]);
      if ops[0].DoUpdate? || ops[0].DoWithdraw? {
        assert ([ops[0]] + rest)[1..] == rest;
      } else {
        EmptyIsNeutral(rest);
      }
    }
  }

  lemma {:induction false} UpdateIsProduced(ops: seq<PeerOp>, i: nat)
    requires i < |ops| && ops[i].DoUpdate?
    ensures ops[i] in Produced(ops)
    decreases |ops|
  {
    if i > 0 { UpdateIsProduced(ops[1..], i - 1); }
  }

  lemma ProducedUsesOnly(ops: seq<PeerOp>, used: set<U.Attributes>)
    requires UsesOnly(Produced(ops), used)
    ensures UsesOnly(ops, used)
  {
    forall i | 0 <= i < |ops| && ops[i].DoUpdate? ensures ops[i].a in used {
      UpdateIsProduced(ops, i);
    }
  }

  // ---------- one event ----------

  lemma {:induction false} EncodeAllLength(env: Env, ms: seq<Msg>)
    requires AllSendable(env, ms)
    ensures |EncodeAll(env, ms)| == |ms|
    decreases |ms|
  {
    if ms != [] { EncodeAllLength(env, ms[1..]); }
  }

  lemma {:induction false} EncodeAllAppend(env: Env, ms: seq<Msg>, more: seq<Msg>)
    requires AllSendable(env, ms) && AllSendable(env, more) && AllSendable(env, ms + more)
    ensures EncodeAll(env, ms + more) == EncodeAll(env, ms) + EncodeAll(env, more)
    decreases |ms|
  {
    if ms == [] {
      EmptyIsNeutral(more);
      EmptyIsNeutral(EncodeAll(env, more));
    } else {
      assert (ms + more)[1..] == ms[1..] + more;
      EncodeAllAppend(env, ms[1..], more);
      Associate([Encode(env, ms[0])], EncodeAll(env, ms[1..]), EncodeAll(env, more));
    }
  }

  lemma EncodeAllParts(env: Env, first: seq<Msg>, rest: seq<Msg>, front: seq<bytes>, back: seq<bytes>)
    requires AllSendable(env, first) && AllSendable(env, rest) && AllSendable(env, first + rest)
    requires EncodeAll(env, first + rest) == front + back && |front| == |first|
    ensures front == EncodeAll(env, first) && back == EncodeAll(env, rest)
  {
    EncodeAllLength(env, first);
    EncodeAllAppend(env, first, rest);
    SplitEqual(front, back, EncodeAll(env, first), EncodeAll(env, rest));
  }

  /** The messages whose bytes are complete once a block has arrived, and those still to come. */
  lemma EncodeAllSplit(env: Env, ms: seq<Msg>, front: seq<bytes>, back: seq<bytes>)
    requires AllSendable(env, ms) && EncodeAll(env, ms) == front + back
    ensures |front| <= |ms|
    ensures front == EncodeAll(env, ms[..|front|]) && back == EncodeAll(env, ms[|front|..])
  {
    EncodeAllLength(env, ms);
    assert |front| <= |ms|;
    assert ms == ms[..|front|] + ms[|front|..];
    EncodeAllParts(env, ms[..|front|], ms[|front|..], front, back);
  }

  lemma NewStates(w: World, next: Peers, buf: bytes, key: Hash)
    requires key in w.peers ==> key in next
    ensures var after := World(WithStates(w, next), buf, true);
      States(after) == next && At(after, key) == At(w, key).(state := RibOf(next, key))
  {
    assert States(World(WithStates(w, next), buf, true)) == next;
  }

  /** Handling the messages that a block completes. */
  lemma BlockIsRun(env: Env, w: World, block: bytes, ms: seq<Msg>, key: Hash)
    requires AllSendable(env, ms) && AllUnlocked(States(w)) && Drain(w.buf + block).frames == EncodeAll(env, ms)
    requires !Drain(w.buf + block).bad
    ensures var next := Arrive(env, w, block);
      && (next.running <==> env.variant.Intended? || ListsThere(States(w), Calls(env, ms)))
      && (next.running ==> AllUnlocked(States(next)) && Leads(env, At(w, key), PeerOps(env, ms, key), At(next, key)))
  {
    HandleAllEncoded(env, States(w), ms, key, At(w, key));
    var (next, ok) := HandleAll(env, States(w), EncodeAll(env, ms));
    if ok { NewStates(w, next, Drain(w.buf + block).residue, key); }
  }

  lemma {:induction false} EndedStays(env: Env, w: World, events: seq<Event>)
    requires PossibleRun(env, w, events) && !w.running
    ensures !Later(env, w, events).running
    decreases |events|
  {
    if events != [] { EndedStays(env, Happen(env, w, events[0]), events[1..]); }
  }

  lemma ConsumeKeepsUnlocked(env: Env, w: World, key: Hash, op: PeerOp)
    requires Possible(env, w, Consume(key, op)) && AllUnlocked(States(w))
    ensures AllUnlocked(States(Happen(env, w, Consume(key, op))))
  {
    var next := Happen(env, w, Consume(key, op));
    if op.DoGet? { GetLeavesRib(env.variant, w.peers[key].state, op.pick); }
    forall k | k in States(next) ensures !States(next)[k].locked {
      assert k in States(w) && !States(w)[k].locked;
      assert !States(w)[key].locked;
    }
  }

  // ---------- whole runs ----------

  /** These messages are what is still to come: in the buffer, and in the bytes not yet received. */
  ghost predicate Awaits(env: Env, w: World, stream: bytes, ms: seq<Msg>) {
    && w.running && AllUnlocked(States(w)) && AllSendable(env, ms)
    && Drain(w.buf) == Drained([], w.buf, false)
    && Drain(w.buf + stream).frames == EncodeAll(env, ms) && !Drain(w.buf + stream).bad
  }

  /** The messages of a stream that is cut after its first block: those complete, and those still to come. */
  lemma ArriveSplits(env: Env, w: World, block: bytes, later: bytes, ms: seq<Msg>)
    requires Awaits(env, w, block + later, ms)
    ensures var d, n := Drain(w.buf + block), Completed(w.buf, Receive(block), ms);
      && d.frames == EncodeAll(env, ms[..n]) && !d.bad && Drain(d.residue) == Drained([], d.residue, false)
      && Drain(d.residue + later).frames == EncodeAll(env, ms[n..]) && !Drain(d.residue + later).bad
  {
    var d := Drain(w.buf + block);
    Associate(w.buf, block, later);
    DrainSplit(w.buf + block, later);
    DrainBlock(w.buf + block, later);
    EncodeAllSplit(env, ms, d.frames, Drain(d.residue + later).frames);
  }

  /** Whether an event lets the session run on. */
  predicate GoesOn(env: Env, w: World, e: Event, ms: seq<Msg>)
    requires AllSendable(env, ms)
  {
    env.variant.Intended? || e.Consume? || ListsThere(States(w), Calls(env, ms[..Completed(w.buf, e, ms)]))
  }

  lemma ReceiveStep(env: Env, w: World, block: bytes, later: bytes, ms: seq<Msg>, key: Hash)
    requires Awaits(env, w, block + later, ms)
    ensures var e, next := Receive(block), Arrive(env, w, block);
      && (next.running <==> GoesOn(env, w, e, ms))
      && (next.running ==>
            && Awaits(env, next, later, ms[Completed(w.buf, e, ms)..]) && next.buf == Residue(w.buf, e)
            && Leads(env, At(w, key), EventOps(env, w.buf, e, ms, key), At(next, key)))
  {
    ArriveSplits(env, w, block, later, ms);
    BlockIsRun(env, w, block, ms[..Completed(w.buf, Receive(block), ms)], key);
  }

  lemma ConsumeStep(env: Env, w: World, e: Event, stream: bytes, ms: seq<Msg>, key: Hash)
    requires e.Consume? && Possible(env, w, e) && Awaits(env, w, stream, ms)
    ensures var next := Happen(env, w, e);
      && Awaits(env, next, stream, ms) && next.buf == w.buf
      && Leads(env, At(w, key), EventOps(env, w.buf, e, ms, key), At(next, key))
  {
    ConsumeKeepsUnlocked(env, w, e.key, e.op);
  }

  lemma EventStep(env: Env, w: World, events: seq<Event>, ms: seq<Msg>, key: Hash)
    requires events != [] && Possible(env, w, events[0]) && Awaits(env, w, Stream(events), ms)
    ensures var e, next := events[0], Happen(env, w, events[0]);
      && (next.running <==> GoesOn(env, w, e, ms))
      && (next.running ==>
            && Awaits(env, next, Stream(events[1..]), ms[Completed(w.buf, e, ms)..]) && next.buf == Residue(w.buf, e)
            && Leads(env, At(w, key), EventOps(env, w.buf, e, ms, key), At(next, key)))
  {
    var e := events[0];
    if e.Receive? {
      ReceiveStep(env, w, e.block, Stream(events[1..]), ms, key);
    } else {
      EmptyIsNeutral(Stream(events[1..]));
      ConsumeStep(env, w, e, Stream(events), ms, key);
      assert ms[0..] == ms;
    }
  }

  lemma PeerOpsSplit(env: Env, ms: seq<Msg>, n: nat, key: Hash)
    requires AllSendable(env, ms) && n <= |ms|
    ensures PeerOps(env, ms, key) == PeerOps(env, ms[..n], key) + PeerOps(env, ms[n..], key)
    ensures Produced(PeerOps(env, ms[..n], key)) == PeerOps(env, ms[..n], key)
  {
    assert Calls(env, ms) == Calls(env, ms[..n]) + Calls(env, ms[n..]);
    OpsForAppend(Calls(env, ms[..n]), Calls(env, ms[n..]), key);
    OpsAreProduced(Calls(env, ms[..n]), key);
  }

  lemma EventProduces(env: Env, buf: bytes, e: Event, ms: seq<Msg>, key: Hash)
    requires AllSendable(env, ms)
    requires e.Consume? ==> e.op.DoGet? || e.op.DoRefresh?
    ensures PeerOps(env, ms, key)
         == Produced(EventOps(env, buf, e, ms, key)) + PeerOps(env, ms[Completed(buf, e, ms)..], key)
  {
    if e.Receive? {
      PeerOpsSplit(env, ms, Completed(buf, e, ms), key);
    } else {
      assert ms[0..] == ms && Produced(EventOps(env, buf, e, ms, key)) == [];
      EmptyIsNeutral(PeerOps(env, ms, key));
    }
  }

  /** While the session runs, a table and its consumer are where the run of that table leads. */
  lemma {:induction false} Explained(env: Env, w: World, events: seq<Event>, ms: seq<Msg>, key: Hash)
    requires PossibleRun(env, w, events) && Awaits(env, w, Stream(events), ms) && Later(env, w, events).running
    ensures var ops, end := PeerRun(env, w.buf, events, ms, key), Later(env, w, events);
      Produced(ops) == PeerOps(env, ms, key) && Leads(env, At(w, key), ops, At(end, key)) && AllUnlocked(States(end))
    decreases |events|
  {
    if events == [] {
      EncodeAllLength(env, ms);
      EmptyIsNeutral(w.buf);
    } else {
      var e, next := events[0], Happen(env, w, events[0]);
      var first, rest := EventOps(env, w.buf, e, ms, key), ms[Completed(w.buf, e, ms)..];
      EventStep(env, w, events, ms, key);
      if !next.running { EndedStays(env, next, events[1..]); }
      Explained(env, next, events[1..], rest, key);
      var more := PeerRun(env, next.buf, events[1..], rest, key);
      EventProduces(env, w.buf, e, ms, key);
      ProducedAppend(first, more);
      LeadsOn(env, At(w, key), first, At(next, key), more, At(Later(env, w, events), key));
    }
  }

  // ---------- when a session as written survives ----------

  type Books = Hash -> Ledger<U.Attributes>

  /** One ledger a table, each of the calls and reads on it. */
  ghost predicate KeepBooks(env: Env, books: Books, w: World) {
    forall k :: Tracks(env.hash, books(k), At(w, k)) && books(k).torn.None?
  }

  predicate WithdrawsFrom(calls: seq<Call>, key: Hash) {
    exists i :: 0 <= i < |calls| && calls[i].Call? && calls[i].key == key && calls[i].update.withdrawn != []
  }

  lemma WithdrawsFromFirst(calls: seq<Call>, key: Hash)
    requires calls != []
    ensures WithdrawsFrom(calls, key) <==>
      || (calls[0].Call? && calls[0].key == key && calls[0].update.withdrawn != [])
      || WithdrawsFrom(calls[1..], key)
  {
    assert forall i :: 0 < i < |calls| ==> calls[i] == calls[1..][i - 1];
    assert forall i :: 0 <= i < |calls[1..]| ==> calls[1..][i] == calls[i + 1];
  }

  lemma EnteredOne(l: Ledger<U.Attributes>, op: PeerOp)
    ensures Entered(l, [op]) == Enter(l, op)
  {
    assert [op][1..] == [];
  }

  lemma EnterTwo(l: Ledger<U.Attributes>, u: U.Update)
    requires l.torn.None?
    ensures var l' := Entered(l, [DoUpdate(u.attributes, u.prefixes), DoWithdraw(u.withdrawn)]);
      (l'.torn.None? <==> !(l.listGone && u.withdrawn != [])) && l'.listGone == l.listGone
  {
    var two: seq<PeerOp> := [DoUpdate(u.attributes, u.prefixes), DoWithdraw(u.withdrawn)];
    assert two[1..] == [DoWithdraw(u.withdrawn)];
    EnteredOne(Enter(l, two[0]), two[1]);
  }

  /** Messages tear a table exactly if one of them withdraws from it and its list of withdraws is gone. */
  lemma {:induction false} CallsTear(l: Ledger<U.Attributes>, calls: seq<Call>, key: Hash)
    requires l.torn.None?
    ensures Entered(l, OpsFor(calls, key)).torn.None? <==> !(l.listGone && WithdrawsFrom(calls, key))
    decreases |calls|
  {
    if calls != [] {
      var first, rest := OpsOfCall(calls[0], key), OpsFor(calls[1..], key);
      WithdrawsFromFirst(calls, key);
      EnteredAppend(l, first, rest);
      if first != [] { EnterTwo(l, calls[0].update); }
      var l1 := Entered(l, first);
      if l1.torn.None? { CallsTear(l1, calls[1..], key); } else { TornStays(l1, rest); }
    }
  }

  lemma ListsAreBooked(env: Env, books: Books, w: World, calls: seq<Call>)
    requires KeepBooks(env, books, w)
    ensures ListsThere(States(w), calls) <==> forall k :: !(books(k).listGone && WithdrawsFrom(calls, k))
  {
    forall k ensures books(k).listGone <==> None !in RibOf(States(w), k).byPath {
      assert Tracks(env.hash, books(k), At(w, k));
    }
    if ListsThere(States(w), calls) {
      forall k ensures !(books(k).listGone && WithdrawsFrom(calls, k)) {}
    } else {
      var i :| 0 <= i < |calls| && calls[i].Call? && calls[i].update.withdrawn != []
        && None !in RibOf(States(w), calls[i].key).byPath;
      assert books(calls[i].key).listGone && WithdrawsFrom(calls, calls[i].key);
    }
  }

  /** The books after an event. */
  function Book(env: Env, books: Books, buf: bytes, e: Event, ms: seq<Msg>): Books
    requires AllSendable(env, ms)
  {
    k => Entered(books(k), EventOps(env, buf, e, ms, k))
  }

  /** An event ends the session exactly if by the books it tears some table. */
  lemma EventTears(env: Env, books: Books, w: World, e: Event, ms: seq<Msg>)
    requires env.variant.AsWritten? && AllSendable(env, ms) && Possible(env, w, e) && KeepBooks(env, books, w)
    ensures GoesOn(env, w, e, ms) <==> forall k :: Book(env, books, w.buf, e, ms)(k).torn.None?
  {
    var calls := Calls(env, ms[..Completed(w.buf, e, ms)]);
    ListsAreBooked(env, books, w, calls);
    forall k ensures Book(env, books, w.buf, e, ms)(k).torn.None? <==>
        e.Consume? || !(books(k).listGone && WithdrawsFrom(calls, k))
    {
      assert books(k).torn.None?;
      if e.Receive? {
        CallsTear(books(k), calls, k);
      } else if e.key == k {
        EnteredOne(books(k), e.op);
      }
    }
  }

  lemma LeadsTracks(env: Env, l: Ledger<U.Attributes>, c: PeerConfig, ops: seq<PeerOp>, end: PeerConfig)
    requires env.variant.AsWritten? && Tracks(env.hash, l, c) && Leads(env, c, ops, end)
    ensures Tracks(env.hash, Entered(l, ops), end)
  {
    RunTracks(env.hash, l, c, ops);
  }

  lemma BookKeepsOne(env: Env, l: Ledger<U.Attributes>, w: World, events: seq<Event>, ms: seq<Msg>, key: Hash)
    requires env.variant.AsWritten? && events != [] && Possible(env, w, events[0])
    requires Awaits(env, w, Stream(events), ms) && Happen(env, w, events[0]).running
    requires Tracks(env.hash, l, At(w, key))
    ensures Tracks(env.hash, Entered(l, EventOps(env, w.buf, events[0], ms, key)), At(Happen(env, w, events[0]), key))
  {
    EventStep(env, w, events, ms, key);
    LeadsTracks(env, l, At(w, key), EventOps(env, w.buf, events[0], ms, key), At(Happen(env, w, events[0]), key));
  }

  lemma BooksTrack(env: Env, books: Books, w: World, events: seq<Event>, ms: seq<Msg>)
    requires env.variant.AsWritten? && events != [] && Possible(env, w, events[0])
    requires Awaits(env, w, Stream(events), ms) && Happen(env, w, events[0]).running
    requires forall k :: Tracks(env.hash, books(k), At(w, k))
    ensures forall k :: Tracks(env.hash, Book(env, books, w.buf, events[0], ms)(k), At(Happen(env, w, events[0]), k))
  {
    forall k { BookKeepsOne(env, books(k), w, events, ms, k); }
  }

  lemma UntornRuns(env: Env, books: Books, w: World, events: seq<Event>, ms: seq<Msg>)
    requires env.variant.AsWritten? && events != [] && Possible(env, w, events[0])
    requires Awaits(env, w, Stream(events), ms) && KeepBooks(env, books, w)
    ensures Happen(env, w, events[0]).running <==>
      forall k :: Book(env, books, w.buf, events[0], ms)(k).torn.None?
  {
    EventStep(env, w, events, ms, 0);
    EventTears(env, books, w, events[0], ms);
  }

  lemma BookKeeps(env: Env, books: Books, w: World, events: seq<Event>, ms: seq<Msg>)
    requires env.variant.AsWritten? && events != [] && Possible(env, w, events[0])
    requires Awaits(env, w, Stream(events), ms) && KeepBooks(env, books, w)
    ensures var next, after := Happen(env, w, events[0]), Book(env, books, w.buf, events[0], ms);
      if next.running then KeepBooks(env, after, next) else exists k :: after(k).torn.Some?
  {
    UntornRuns(env, books, w, events, ms);
    if Happen(env, w, events[0]).running { BooksTrack(env, books, w, events, ms); }
  }

  /** By these books no table is torn at the end. */
  ghost predicate NoneTorn(env: Env, books: Books, buf: bytes, events: seq<Event>, ms: seq<Msg>)
    requires AllSendable(env, ms)
  {
    forall k :: Entered(books(k), PeerRun(env, buf, events, ms, k)).torn.None?
  }

  lemma NoneTornFirst(env: Env, books: Books, buf: bytes, events: seq<Event>, ms: seq<Msg>)
    requires events != [] && AllSendable(env, ms)
    ensures NoneTorn(env, books, buf, events, ms) ==
      NoneTorn(env, Book(env, books, buf, events[0], ms), Residue(buf, events[0]), events[1..],
               ms[Completed(buf, events[0], ms)..])
  {
    var e, rest := events[0], ms[Completed(buf, events[0], ms)..];
    forall k ensures Entered(books(k), PeerRun(env, buf, events, ms, k)) ==
        Entered(Book(env, books, buf, e, ms)(k), PeerRun(env, Residue(buf, e), events[1..], rest, k))
    {
      EnteredAppend(books(k), EventOps(env, buf, e, ms, k), PeerRun(env, Residue(buf, e), events[1..], rest, k));
    }
  }

  lemma NoneTornAtEnd(env: Env, books: Books, buf: bytes, ms: seq<Msg>)
    requires AllSendable(env, ms) && forall k :: books(k).torn.None?
    ensures NoneTorn(env, books, buf, [], ms)
  {
    assert forall k :: Entered(books(k), PeerRun(env, buf, [], ms, k)) == books(k);
  }

  lemma OnceTorn(env: Env, books: Books, k: Hash, buf: bytes, events: seq<Event>, ms: seq<Msg>)
    requires AllSendable(env, ms) && books(k).torn.Some?
    ensures !NoneTorn(env, books, buf, events, ms)
  {
    TornStays(books(k), PeerRun(env, buf, events, ms, k));
  }

  lemma TornAtOnce(env: Env, books: Books, buf: bytes, events: seq<Event>, ms: seq<Msg>)
    requires events != [] && AllSendable(env, ms)
    requires exists k :: Book(env, books, buf, events[0], ms)(k).torn.Some?
    ensures !NoneTorn(env, books, buf, events, ms)
  {
    var after := Book(env, books, buf, events[0], ms);
    var k :| after(k).torn.Some?;
    NoneTornFirst(env, books, buf, events, ms);
    OnceTorn(env, after, k, Residue(buf, events[0]), events[1..], ms[Completed(buf, events[0], ms)..]);
  }

  lemma {:induction false} Survives(env: Env, books: Books, w: World, events: seq<Event>, ms: seq<Msg>)
    requires env.variant.AsWritten? && PossibleRun(env, w, events) && Awaits(env, w, Stream(events), ms)
    requires KeepBooks(env, books, w)
    ensures Later(env, w, events).running == NoneTorn(env, books, w.buf, events, ms)
    decreases |events|
  {
    if events == [] {
      NoneTornAtEnd(env, books, w.buf, ms);
    } else {
      var e, next, rest := events[0], Happen(env, w, events[0]), ms[Completed(w.buf, events[0], ms)..];
      BookKeeps(env, books, w, events, ms);
      if next.running {
        EventStep(env, w, events, ms, 0);
        NoneTornFirst(env, books, w.buf, events, ms);
        Survives(env, Book(env, books, w.buf, e, ms), next, events[1..], rest);
      } else {
        EndedStays(env, next, events[1..]);
        TornAtOnce(env, books, w.buf, events, ms);
      }
    }
  }

  lemma {:induction false} NeverEnds(env: Env, w: World, events: seq<Event>, ms: seq<Msg>)
    requires env.variant.Intended? && PossibleRun(env, w, events) && Awaits(env, w, Stream(events), ms)
    ensures Later(env, w, events).running
    decreases |events|
  {
    if events != [] {
      EventStep(env, w, events, ms, 0);
      NeverEnds(env, Happen(env, w, events[0]), events[1..], ms[Completed(w.buf, events[0], ms)..]);
    }
  }

  // ---------- the theorems ----------

  /** A stream of these messages, perhaps with the beginning of one more, has been received. */
  ghost predicate Session(env: Env, events: seq<Event>, ms: seq<Msg>, tail: bytes) {
    && PossibleRun(env, Begin(), events) && AllSendable(env, ms)
    && Stream(events) == Concat(EncodeAll(env, ms)) + tail && GetNext(tail) == Got(tail, [])
  }

  /** What the calls and reads on one table amount to. */
  function Booked(env: Env, events: seq<Event>, ms: seq<Msg>, key: Hash): Ledger<U.Attributes>
    requires AllSendable(env, ms)
  {
    Entered(Blank(), PeerRun(env, [], events, ms, key))
  }

  lemma BeginAwaits(env: Env, events: seq<Event>, ms: seq<Msg>, tail: bytes)
    requires Session(env, events, ms, tail)
    ensures Awaits(env, Begin(), Stream(events), ms)
  {
    EncodeAllMessages(env, ms);
    DrainMessages(EncodeAll(env, ms), tail);
    EmptyIsNeutral(Stream(events));
  }

  lemma BlankBooks(env: Env, books: Books)
    requires forall k :: books(k) == Blank()
    ensures KeepBooks(env, books, Begin())
  {
    StartIsInvariant<U.Attributes>(AsWritten);
    assert forall k :: At(Begin(), k) == Start();
  }

  /**
   * When a session ends by itself. As intended it never does; as written it does exactly if for some peer a
   * message withdraws a route after an ordinary read of its table, with no refresh since that read.
   */
  lemma SessionSurvives(env: Env, events: seq<Event>, ms: seq<Msg>, tail: bytes)
    requires Session(env, events, ms, tail)
    ensures Later(env, Begin(), events).running <==>
      env.variant.Intended? || forall k :: Booked(env, events, ms, k).torn.None?
  {
    BeginAwaits(env, events, ms, tail);
    if env.variant.Intended? {
      NeverEnds(env, Begin(), events, ms);
    } else {
      var blank: Books := k => Blank();
      BlankBooks(env, blank);
      Survives(env, blank, Begin(), events, ms);
      assert forall k :: Entered(blank(k), PeerRun(env, [], events, ms, k)) == Booked(env, events, ms, k);
    }
  }

  /**
   * Whatever arrived so far, in whatever blocks, and however its readers went about it: while the session
   * runs, the table of a peer and its consumer are where that peer's own calls lead, with the reads and
   * refreshes of that one consumer between them.
   */
  lemma SessionIsRun(env: Env, events: seq<Event>, ms: seq<Msg>, tail: bytes, key: Hash)
    requires Session(env, events, ms, tail) && Later(env, Begin(), events).running
    ensures var ops, end := PeerRun(env, [], events, ms, key), Later(env, Begin(), events);
      && AllUnlocked(States(end))
      && Produced(ops) == PeerOps(env, ms, key) && Reachable(env.variant, env.hash, ops, At(end, key))
  {
    BeginAwaits(env, events, ms, tail);
    Explained(env, Begin(), events, ms, key);
  }

  /** So a consumer that is told at any moment that nothing is left holds the routes its peer announced last. */
  lemma NothingLeftAnytime(env: Env, events: seq<Event>, ms: seq<Msg>, tail: bytes, key: Hash,
                           used: set<U.Attributes>, pick: Hash)
    requires env.variant.Intended? && Session(env, events, ms, tail)
    requires UsesOnly(PeerOps(env, ms, key), used) && Separates(env.hash, used)
    requires var s := At(Later(env, Begin(), events), key).state;
      Pickable(s, pick) && Get(Intended, s, pick).1.NothingLeft?
    ensures At(Later(env, Begin(), events), key).table == Expected(LastSaid(map[], PeerOps(env, ms, key)))
  {
    var ops := PeerRun(env, [], events, ms, key);
    SessionSurvives(env, events, ms, tail);
    SessionIsRun(env, events, ms, tail, key);
    ProducedUsesOnly(ops, used);
    ReadsSayNothing(map[], ops);
    NothingLeftMeansAgreement(env.hash, ops, At(Later(env, Begin(), events), key), used, pick);
  }

  lemma BookedSaid(env: Env, events: seq<Event>, ms: seq<Msg>, tail: bytes, key: Hash)
    requires env.variant.AsWritten? && Session(env, events, ms, tail) && Later(env, Begin(), events).running
    ensures Booked(env, events, ms, key).said == LastSaid(map[], PeerOps(env, ms, key))
  {
    var ops := PeerRun(env, [], events, ms, key);
    SessionSurvives(env, events, ms, tail);
    SessionIsRun(env, events, ms, tail, key);
    assert Booked(env, events, ms, key).torn.None?;
    SaidLast(Blank(), ops);
    ReadsSayNothing(map[], ops);
  }

  /** As written, exactly when that reply is true of the routes the peer announced last. */
  lemma NothingLeftAnytimeAsWritten(env: Env, events: seq<Event>, ms: seq<Msg>, tail: bytes, key: Hash,
                                    used: set<U.Attributes>, pick: Hash)
    requires env.variant.AsWritten? && Session(env, events, ms, tail) && Later(env, Begin(), events).running
    requires UsesOnly(PeerOps(env, ms, key), used) && Separates(env.hash, used)
    requires var s := At(Later(env, Begin(), events), key).state;
      Pickable(s, pick) && Get(AsWritten, s, pick).1.NothingLeft?
    ensures var c, l := At(Later(env, Begin(), events), key), Booked(env, events, ms, key);
      c.table == Expected(LastSaid(map[], PeerOps(env, ms, key))) <==>
        if l.listGone then EmptiedRight(env.hash, l, c) else EarlyRight(l, c)
  {
    var ops := PeerRun(env, [], events, ms, key);
    SessionIsRun(env, events, ms, tail, key);
    ProducedUsesOnly(ops, used);
    BookedSaid(env, events, ms, tail, key);
    NothingLeftAsWritten(env.hash, ops, At(Later(env, Begin(), events), key), used, pick);
  }

  /** And which entries are wrong then, or at any time outside a refresh. */
  lemma ShortfallAnytime(env: Env, events: seq<Event>, ms: seq<Msg>, tail: bytes, key: Hash,
                         used: set<U.Attributes>, p: Prefix)
    requires env.variant.AsWritten? && Session(env, events, ms, tail) && Later(env, Begin(), events).running
    requires UsesOnly(PeerOps(env, ms, key), used) && Separates(env.hash, used)
    requires At(Later(env, Begin(), events), key).state.refreshing.None?
    ensures var c, l := At(Later(env, Begin(), events), key), Booked(env, events, ms, key);
      Lookup(c.table, p) != Lookup(Expected(LastSaid(map[], PeerOps(env, ms, key))), p) <==>
        if Waiting(c.state, p) then
          !(p in c.table && c.table[p] == Resolved(c.state, c.state.pending[p].value))
        else EntryIsWrong(l, c, p)
  {
    var ops := PeerRun(env, [], events, ms, key);
    SessionIsRun(env, events, ms, tail, key);
    ProducedUsesOnly(ops, used);
    BookedSaid(env, events, ms, tail, key);
    RoutesAreExpected(env.hash, ops, At(Later(env, Begin(), events), key), used);
    Shortfall(env.hash, ops, At(Later(env, Begin(), events), key), p);
  }
}

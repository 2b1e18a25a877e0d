/**
 * Cutting a BMP byte stream into messages (common header: section 4.1 of RFC 7854). One specification,
 * Drain, and the three framers that are meant to follow it: get_next driven by a receive loop (bmpparse.py,
 * collector.py), BMP_unblocker.push (bmpblkparse.py) and Spider.get with Spider.parse (spider.py).
 */
module Framing {
  import opened Types
  import opened Bytes

  /** What get_next returns: the rest of the buffer and one message, empty when there is none yet. */
  datatype Next = Rejected | Got(rest: bytes, msg: bytes)

  predicate GoodHeader(buf: bytes)
    requires |buf| >= 6
  {
    buf[0] == 3 && buf[5] < 7
  }

  function GetNext(buf: bytes): Next {
    if |buf| < 6 then Got(buf, [])
    else if !GoodHeader(buf) then Rejected
    else
      var length := Be32(buf, 1);
      if |buf| < length then Got(buf, []) else Got(buf[length..], buf[..length])
  }

  /** The messages at the front of a buffer, what is left, and whether a header there is unacceptable. */
  datatype Drained = Drained(frames: seq<bytes>, residue: bytes, bad: bool)

  function Drain(buf: bytes): Drained
    decreases |buf|
  {
    match GetNext(buf)
    case Rejected => Drained([], buf, true)
    case Got(rest, msg) =>
      if msg == [] then Drained([], buf, false) else After([msg], Drain(rest))
  }

  function After(frames: seq<bytes>, d: Drained): Drained {
    d.(frames := frames + d.frames)
  }

  /** A header that claims a length of zero: no framer ever gets past it. */
  predicate Stalled(buf: bytes) {
    |buf| >= 6 && GoodHeader(buf) && Be32(buf, 1) == 0
  }

  // ---------- the specification ----------

  lemma GetNextSplits(buf: bytes)
    ensures GetNext(buf).Got? ==> buf == GetNext(buf).msg + GetNext(buf).rest
  {}

  lemma DrainStep(buf: bytes)
    requires GetNext(buf).Got? && GetNext(buf).msg != []
    ensures |GetNext(buf).rest| < |buf|
    ensures Drain(buf) == After([GetNext(buf).msg], Drain(GetNext(buf).rest))
  {}

  lemma DrainStop(buf: bytes)
    requires GetNext(buf).Rejected? || GetNext(buf).msg == []
    ensures Drain(buf) == Drained([], buf, GetNext(buf).Rejected?)
  {}

  lemma Reassemble(msg: bytes, frames: seq<bytes>, residue: bytes)
    ensures Concat([msg] + frames) + residue == msg + (Concat(frames) + residue)
  {
    ConcatCons(msg, frames);
  }

  lemma AfterAfter(xs: seq<bytes>, ys: seq<bytes>, d: Drained)
    ensures After(xs, After(ys, d)) == After(xs + ys, d)
  {
    assert xs + (ys + d.frames) == xs + ys + d.frames;
  }

  lemma DrainStopsAtResidue(buf: bytes)
    requires GetNext(buf).Rejected? || GetNext(buf).msg == []
    ensures var d := Drain(buf);
      && d.frames == [] && d.residue == buf
      && (if d.bad then GetNext(buf).Rejected? else GetNext(buf) == Got(buf, []))
  {
    DrainStop(buf);
    if GetNext(buf).Got? {
      GetNextSplits(buf);
      EmptyIsNeutral(GetNext(buf).rest);
    }
  }

  /** Messages and residue together are the buffer, and the residue holds no message. */
  lemma {:induction false} DrainConserves(buf: bytes)
    ensures var d := Drain(buf);
      && Concat(d.frames) + d.residue == buf
      && (if d.bad then GetNext(d.residue).Rejected? else GetNext(d.residue) == Got(d.residue, []))
      && (forall i :: 0 <= i < |d.frames| ==> d.frames[i] != [])
    decreases |buf|
  {
    var next := GetNext(buf);
    if next.Got? && next.msg != [] {
      DrainStep(buf);
      DrainConserves(next.rest);
      var d := Drain(next.rest);
      Reassemble(next.msg, d.frames, d.residue);
      GetNextSplits(buf);
    } else {
      DrainStopsAtResidue(buf);
      EmptyIsNeutral(buf);
    }
  }

  /** A header is judged by its own bytes, so bytes that arrive later do not change the verdict. */
  lemma GetNextExtends(a: bytes, b: bytes)
    ensures GetNext(a).Rejected? ==> GetNext(a + b).Rejected?
    ensures GetNext(a).Got? && GetNext(a).msg != [] ==> GetNext(a + b) == Got(GetNext(a).rest + b, GetNext(a).msg)
  {
    if |a| >= 6 {
      assert Be32(a + b, 1) == Be32(a, 1);
      var length := Be32(a, 1);
      if length <= |a| {
        assert (a + b)[length..] == a[length..] + b && (a + b)[..length] == a[..length];
      }
    }
  }

  /** Draining a longer buffer is draining the shorter one and then going on from what it left. */
  lemma {:induction false} DrainSplit(a: bytes, b: bytes)
    ensures var d := Drain(a);
      Drain(a + b) == if d.bad then d.(residue := d.residue + b) else After(d.frames, Drain(d.residue + b))
    decreases |a|
  {
    var next := GetNext(a);
    GetNextExtends(a, b);
    if next.Got? && next.msg != [] {
      DrainStep(a);
      DrainStep(a + b);
      DrainSplit(next.rest, b);
      var d := Drain(next.rest);
      AfterAfter([next.msg], d.frames, Drain(d.residue + b));
    } else {
      DrainStop(a);
      if next.Rejected? { DrainStop(a + b); }
      assert After([], Drain(a + b)) == Drain(a + b);
    }
  }

  /** A BMP message by its common header: version 3, a type up to 6, and its own length. */
  predicate IsMessage(m: bytes) {
    |m| >= 6 && m[0] == 3 && m[5] <= 6 && Be32(m, 1) == |m|
  }

  /** What get_next leaves for good: another version or a type above 6. */
  predicate BadResidue(r: bytes) {
    |r| >= 6 && (r[0] != 3 || r[5] > 6)
  }

  /** What it leaves for now: no whole header, less than a whole message, or a length of zero. */
  predicate OpenResidue(r: bytes) {
    |r| < 6 || (r[0] == 3 && r[5] <= 6 && (|r| < Be32(r, 1) || Be32(r, 1) == 0))
  }

  /**
   * Which headers are accepted. Draining stops at the first that is not, or that has to wait; every frame in
   * front of it that holds a header is a message.
   */
  lemma {:induction false} DrainStopsWhere(buf: bytes)
    ensures var d := Drain(buf);
      && (if d.bad then BadResidue(d.residue) else OpenResidue(d.residue))
      && (forall i :: 0 <= i < |d.frames| && |d.frames[i]| >= 6 ==> IsMessage(d.frames[i]))
    decreases |buf|
  {
    var next := GetNext(buf);
    if next.Got? && next.msg != [] {
      DrainStep(buf);
      DrainStopsWhere(next.rest);
      if |next.msg| >= 6 { assert Be32(next.msg, 1) == Be32(buf, 1); }
    } else {
      DrainStopsAtResidue(buf);
    }
  }

  lemma GetNextMessage(m: bytes, rest: bytes)
    requires IsMessage(m)
    ensures GetNext(m + rest) == Got(rest, m)
  {
    GetNextExtends(m, rest);
    assert m[|m|..] == [] && m[..|m|] == m;
    EmptyIsNeutral(rest);
  }

  lemma DrainFirst(m: bytes, rest: bytes)
    requires IsMessage(m)
    ensures Drain(m + rest) == After([m], Drain(rest))
  {
    GetNextMessage(m, rest);
    DrainStep(m + rest);
  }

  /** A stream of messages with an unfinished one behind them gives back exactly those messages. */
  lemma {:induction false} DrainMessages(ms: seq<bytes>, tail: bytes)
    requires forall i :: 0 <= i < |ms| ==> IsMessage(ms[i])
    requires GetNext(tail) == Got(tail, [])
    ensures Drain(Concat(ms) + tail) == Drained(ms, tail, false)
  {
    if ms == [] {
      assert [] + tail == tail;
    } else {
      var rest := Concat(ms[1..]) + tail;
      DrainMessages(ms[1..], tail);
      Associate(ms[0], Concat(ms[1..]), tail);
      DrainFirst(ms[0], rest);
      assert ms == [ms[0]] + ms[1..];
    }
  }

  // ---------- blocks ----------

  /** recv returns nothing once the connection is closed; what it returned before that. */
  function Received(blocks: seq<bytes>): bytes {
    if blocks == [] || blocks[0] == [] then [] else blocks[0] + Received(blocks[1..])
  }

  /** The receive loop: extend the buffer by one block, take out what is complete, and so on. */
  function Feed(buf: bytes, blocks: seq<bytes>): Drained
    decreases |blocks|
  {
    if blocks == [] || blocks[0] == [] then Drained([], buf, false)
    else
      var d := Drain(buf + blocks[0]);
      if d.bad then d else After(d.frames, Feed(d.residue, blocks[1..]))
  }

  lemma JoinFirst(buf: bytes, blocks: seq<bytes>)
    requires blocks != []
    ensures buf + Concat(blocks) == (buf + blocks[0]) + Concat(blocks[1..])
    ensures blocks[0] != [] ==> buf + Received(blocks) == (buf + blocks[0]) + Received(blocks[1..])
  {}

  /** What draining one more block does, and that the residue is ready for the next. */
  lemma DrainBlock(buf: bytes, later: bytes)
    ensures var d := Drain(buf);
      d.bad || (Drain(buf + later) == After(d.frames, Drain(d.residue + later))
                && Drain(d.residue) == Drained([], d.residue, false))
  {
    DrainSplit(buf, later);
    DrainConserves(buf);
    if !Drain(buf).bad { DrainStop(Drain(buf).residue); }
  }

  /** However the stream is cut into blocks, the loop takes out the messages of the whole stream. */
  lemma {:induction false} FeedIsDrain(buf: bytes, blocks: seq<bytes>)
    requires Drain(buf) == Drained([], buf, false)
    ensures var whole, fed := Drain(buf + Received(blocks)), Feed(buf, blocks);
      && fed.frames == whole.frames && fed.bad == whole.bad
      && (!fed.bad ==> fed.residue == whole.residue)
    decreases |blocks|
  {
    if blocks == [] || blocks[0] == [] {
      assert buf + [] == buf;
    } else {
      var d := Drain(buf + blocks[0]);
      JoinFirst(buf, blocks);
      if d.bad {
        DrainSplit(buf + blocks[0], Received(blocks[1..]));
      } else {
        DrainBlock(buf + blocks[0], Received(blocks[1..]));
        FeedIsDrain(d.residue, blocks[1..]);
      }
    }
  }

  /** Two ways of cutting the same bytes give the same messages, verdict and residue. */
  lemma CutsDoNotMatter(blocks: seq<bytes>, others: seq<bytes>)
    requires Received(blocks) == Received(others)
    ensures var fed, fed' := Feed([], blocks), Feed([], others);
      fed.frames == fed'.frames && fed.bad == fed'.bad && (!fed.bad ==> fed == fed')
  {
    FeedIsDrain([], blocks);
    FeedIsDrain([], others);
  }

  // ---------- Spider ----------

  /** BMP_message raises on a message it does not accept. */
  datatype SpiderEnd = NormalEnd | ShortHeader | ShortPayload | BadHeader | Refused

  /** How Spider.parse cuts a whole file. A length below 6 asks for a negative payload and ends like a short one. */
  function SpiderScan(file: bytes): (seq<bytes>, SpiderEnd)
    decreases |file|
  {
    if |file| == 0 then ([], NormalEnd)
    else if |file| < 6 then ([], ShortHeader)
    else if !GoodHeader(file) then ([], BadHeader)
    else
      var length := Be32(file, 1);
      if length < 6 || |file| < length then ([], ShortPayload)
      else
        var (frames, end) := SpiderScan(file[length..]);
        ([file[..length]] + frames, end)
  }

  /** The messages that Spider.parse gets to hold before the first one that is not accepted. */
  function Judged(accepts: bytes -> bool, r: (seq<bytes>, SpiderEnd)): (seq<bytes>, SpiderEnd)
    decreases |r.0|
  {
    if r.0 == [] then r
    else if !accepts(r.0[0]) then ([], Refused)
    else
      var (frames, end) := Judged(accepts, (r.0[1..], r.1));
      ([r.0[0]] + frames, end)
  }

  /** These are all messages up to the first that is refused. */
  lemma {:induction false} JudgedIsPrefix(accepts: bytes -> bool, r: (seq<bytes>, SpiderEnd))
    requires !r.1.Refused?
    ensures var (frames, end) := Judged(accepts, r);
      && frames <= r.0 && (forall i :: 0 <= i < |frames| ==> accepts(frames[i]))
      && (if end.Refused? then |frames| < |r.0| && !accepts(r.0[|frames|]) else (frames, end) == r)
    decreases |r.0|
  {
    if r.0 != [] && accepts(r.0[0]) {
      JudgedIsPrefix(accepts, (r.0[1..], r.1));
      assert r.0 == [r.0[0]] + r.0[1..];
    }
  }

  predicate AllLong(frames: seq<bytes>) {
    forall i :: 0 <= i < |frames| ==> |frames[i]| >= 6
  }

  /** Spider finds the same messages as the receive loop exactly when no header gives a length of 1 to 5. */
  lemma {:induction false} SpiderAgrees(file: bytes)
    ensures var (frames, end), d := SpiderScan(file), Drain(file);
      && (frames == d.frames <==> AllLong(d.frames))
      && |frames| <= |d.frames| && AllLong(frames)
      && (AllLong(d.frames) ==>
            && (end.BadHeader? <==> d.bad) && (end.NormalEnd? <==> d.residue == [])
            && (end.ShortHeader? <==> 0 < |d.residue| < 6)
            && (end.ShortPayload? <==> |d.residue| >= 6 && !d.bad))
    decreases |file|
  {
    var next := GetNext(file);
    if next.Got? && next.msg != [] {
      var d := Drain(file);
      assert d.frames[0] == next.msg;
      if |next.msg| >= 6 {
        SpiderAgrees(next.rest);
        var e := Drain(next.rest);
        assert d.frames[1..] == e.frames;
        assert forall i :: 0 <= i < |e.frames| ==> e.frames[i] == d.frames[i + 1];
        assert SpiderScan(file).0[1..] == SpiderScan(next.rest).0;
      }
    }
  }

  // ---------- BMP_unblocker ----------

  /** How the loop of push ends: its guard, its break, or never properly. */
  datatype PushEnd = GuardExit | BreakExit | ShortRead | FailedCheck | Endless

  datatype Pushed = Pushed(frames: seq<bytes>, rest: bytes, end: PushEnd)

  /**
   * The loop of push. As written its guard lets 5 bytes through, where reading the type at offset 5 raises;
   * the intended guard asks for the whole header. A length of zero is "extracted" again and again.
   */
  function PushScan(v: Variant, buf: bytes): Pushed
    decreases |buf|
  {
    if |buf| < (if v.AsWritten? then 5 else 6) then Pushed([], buf, GuardExit)
    else if |buf| == 5 then Pushed([], buf, ShortRead)
    else if !GoodHeader(buf) then Pushed([], buf, FailedCheck)
    else
      var length := Be32(buf, 1);
      if |buf| < length then Pushed([], buf, BreakExit)
      else if length == 0 then Pushed([], buf, Endless)
      else
        var p := PushScan(v, buf[length..]);
        p.(frames := [buf[..length]] + p.frames)
  }

  predicate Returns(end: PushEnd) {
    end.GuardExit? || end.BreakExit?
  }

  /** As written msg_tail is set on the break only. */
  function TailAfter(v: Variant, tail: bytes, p: Pushed): bytes {
    if p.end.BreakExit? || (v.Intended? && p.end.GuardExit?) then p.rest else tail
  }

  /** How push ends is decided by what Drain leaves. */
  function EndFor(v: Variant, d: Drained): PushEnd {
    if d.bad then FailedCheck
    else if |d.residue| < 5 then GuardExit
    else if |d.residue| == 5 then if v.AsWritten? then ShortRead else GuardExit
    else if Stalled(d.residue) then Endless
    else BreakExit
  }

  lemma {:induction false} PushScanIsDrain(v: Variant, buf: bytes)
    ensures var p, d := PushScan(v, buf), Drain(buf);
      p.frames == d.frames && p.rest == d.residue && p.end == EndFor(v, d)
    decreases |buf|
  {
    var next := GetNext(buf);
    if next.Got? && next.msg != [] { PushScanIsDrain(v, next.rest); }
  }

  /** One call of push, as written, returns with the right tail exactly in these cases. */
  lemma PushKeepsTail(tail: bytes, block: bytes)
    ensures var p, d := PushScan(AsWritten, tail + block), Drain(tail + block);
      Returns(p.end) && TailAfter(AsWritten, tail, p) == d.residue <==>
        !d.bad && SafeResidue(tail, d.residue)
  {
    PushScanIsDrain(AsWritten, tail + block);
  }

  /** What may be left after a block: a started message, or again exactly the old tail. */
  predicate SafeResidue(tail: bytes, residue: bytes) {
    if |residue| < 5 then residue == tail else |residue| > 5 && !Stalled(residue)
  }

  /** A sequence of pushes: all messages returned, the last tail, and whether every call returned. */
  function PushAll(v: Variant, tail: bytes, blocks: seq<bytes>): (seq<bytes>, bytes, bool)
    decreases |blocks|
  {
    if blocks == [] then ([], tail, true)
    else
      var p := PushScan(v, tail + blocks[0]);
      if !Returns(p.end) then ([], tail, false)
      else
        var (frames, last, ok) := PushAll(v, TailAfter(v, tail, p), blocks[1..]);
        (p.frames + frames, last, ok)
  }

  /**
   * As intended, push over any blocks is Drain over their concatenation: every call returns exactly when no
   * header is unacceptable or gives a length of zero, and then messages and tail are those of the stream.
   */
  lemma {:induction false} PushAllIsDrain(tail: bytes, blocks: seq<bytes>)
    requires Drain(tail) == Drained([], tail, false) && !Stalled(tail)
    ensures var d, all := Drain(tail + Concat(blocks)), PushAll(Intended, tail, blocks);
      && (all.2 <==> !d.bad && !Stalled(d.residue))
      && (all.2 ==> all == (d.frames, d.residue, true))
    decreases |blocks|
  {
    if blocks == [] {
      assert tail + [] == tail;
    } else {
      var d := Drain(tail + blocks[0]);
      JoinFirst(tail, blocks);
      if d.bad { DrainSplit(tail + blocks[0], Concat(blocks[1..])); }
      DrainBlock(tail + blocks[0], Concat(blocks[1..]));
      PushScanIsDrain(Intended, tail + blocks[0]);
      if Stalled(d.residue) {
        StallStays(d.residue, Concat(blocks[1..]));
      } else if !d.bad {
        PushAllIsDrain(d.residue, blocks[1..]);
      }
    }
  }

  lemma StallStays(buf: bytes, later: bytes)
    ensures Stalled(buf) ==> Drain(buf + later) == Drained([], buf + later, false) && Stalled(buf + later)
  {}

  /** Whether the cuts of a stream suit push as written, given what the earlier blocks left. */
  predicate SafeCuts(tail: bytes, blocks: seq<bytes>)
    decreases |blocks|
  {
    blocks == [] ||
      var d := Drain(tail + blocks[0]);
      !d.bad && SafeResidue(tail, d.residue) && SafeCuts(d.residue, blocks[1..])
  }

  // ---------- a tail that is not what Drain leaves ----------

  /** A message of seven bytes. */
  const SEVEN: bytes := [3, 0, 0, 0, 7, 4, 9]

  function Zeros(n: nat): (b: bytes)
    ensures |b| == n && forall i :: 0 <= i < n ==> b[i] == 0
  {
    if n == 0 then [] else [0] + Zeros(n - 1)
  }

  /** The first bytes of a message, the header among them. */
  predicate Started(t: bytes) {
    |t| >= 6 && GoodHeader(t) && Be32(t, 1) > |t|
  }

  function Missing(t: bytes): nat
    requires Started(t)
  {
    Be32(t, 1) - |t|
  }

  lemma MoreOfStarted(t: bytes, b: bytes)
    requires Started(t) && |b| <= Missing(t)
    ensures Drain(t + b).frames == if |b| == Missing(t) then [t + b] else []
  {
    assert Be32(t + b, 1) == Be32(t, 1);
    if |b| == Missing(t) {
      assert (t + b)[..|t + b|] == t + b && (t + b)[|t + b|..] == [];
      assert Drain([]) == Drained([], [], false);
      EmptyIsNeutral([t + b]);
    }
  }

  lemma FirstFrameFits(buf: bytes)
    ensures var frames := Drain(buf).frames;
      frames != [] ==> |frames[0]| <= |buf| && frames[0] == buf[..|frames[0]|]
  {}

  lemma ZerosHaveNoFrame(n: nat)
    ensures Drain(Zeros(n)).frames == []
  {}

  lemma SevenDrains()
    ensures Drain(SEVEN).frames == [SEVEN]
  {
    assert SEVEN[7..] == [] && SEVEN[..7] == SEVEN;
    assert Drain([]) == Drained([], [], false);
    EmptyIsNeutral([SEVEN]);
  }

  /** A few bytes in front of SEVEN do not make the same message again. */
  lemma ShiftedSeven(r: bytes)
    requires 0 < |r| < 6
    ensures Drain(r + SEVEN).frames != [SEVEN]
  {
    var frames := Drain(r + SEVEN).frames;
    FirstFrameFits(r + SEVEN);
    assert (r + SEVEN)[|r|] == SEVEN[0] != SEVEN[|r|];
    if frames != [] && |frames[0]| == |SEVEN| {
      assert frames[0][|r|] == SEVEN[0];
    }
  }

  /** From a tail that is not the residue some next block yields other messages. */
  lemma WrongTailShows(t: bytes, r: bytes) returns (b: bytes)
    requires t != r && (t == [] || Started(t)) && (|r| < 6 || Started(r) || Stalled(r))
    ensures Drain(t + b).frames != Drain(r + b).frames
  {
    if Started(r) && (t == [] || Missing(r) < Missing(t)) {
      b := Zeros(Missing(r));
      MoreOfStarted(r, b);
      if t == [] { ZerosHaveNoFrame(|b|); EmptyIsNeutral(b); } else { MoreOfStarted(t, b); }
    } else if t == [] {
      b := SEVEN;
      SevenDrains();
      EmptyIsNeutral(b);
      if Stalled(r) { StallStays(r, b); } else { ShiftedSeven(r); }
    } else {
      b := Zeros(Missing(t));
      MoreOfStarted(t, b);
      FirstFrameFits(r + b);
      if Stalled(r) { StallStays(r, b); }
      if Started(r) {
        MoreOfStarted(r, b);
        if |t| == |r| { SplitEqual(t, b, r, b); }
      }
    }
  }

  /** Every call returns, and with the tail it leaves any next block will yield the messages it should. */
  ghost predicate AlwaysRight(tail: bytes, blocks: seq<bytes>)
    decreases |blocks|
  {
    blocks == [] ||
      var p, d := PushScan(AsWritten, tail + blocks[0]), Drain(tail + blocks[0]);
      var t := TailAfter(AsWritten, tail, p);
      && Returns(p.end)
      && (forall next :: PushScan(AsWritten, t + next).frames == Drain(d.residue + next).frames)
      && AlwaysRight(t, blocks[1..])
  }

  /** One call leaves such a tail exactly if it leaves the residue. */
  lemma TailMatters(tail: bytes, block: bytes)
    requires tail == [] || Started(tail)
    ensures var p, d := PushScan(AsWritten, tail + block), Drain(tail + block);
      var t := TailAfter(AsWritten, tail, p);
      Returns(p.end) ==>
        && (t == [] || Started(t))
        && (t == d.residue <==> forall next :: PushScan(AsWritten, t + next).frames == Drain(d.residue + next).frames)
  {
    var p, d := PushScan(AsWritten, tail + block), Drain(tail + block);
    var t := TailAfter(AsWritten, tail, p);
    PushScanIsDrain(AsWritten, tail + block);
    DrainConserves(tail + block);
    forall next ensures PushScan(AsWritten, t + next).frames == Drain(t + next).frames {
      PushScanIsDrain(AsWritten, t + next);
    }
    if Returns(p.end) && t != d.residue {
      var next := WrongTailShows(t, d.residue);
    }
  }

  /**
   * As written every call returns with a tail that will do for whatever comes next exactly on the safe cuts,
   * and on those the messages so far are those of the stream.
   */
  lemma {:induction false} PushAllAsWritten(tail: bytes, blocks: seq<bytes>)
    requires Drain(tail) == Drained([], tail, false) && (tail == [] || Started(tail))
    ensures AlwaysRight(tail, blocks) <==> SafeCuts(tail, blocks)
    ensures var d := Drain(tail + Concat(blocks));
      SafeCuts(tail, blocks) ==> PushAll(AsWritten, tail, blocks) == (d.frames, d.residue, true)
    decreases |blocks|
  {
    if blocks == [] {
      EmptyIsNeutral(tail);
    } else {
      var d := Drain(tail + blocks[0]);
      PushKeepsTail(tail, blocks[0]);
      TailMatters(tail, blocks[0]);
      JoinFirst(tail, blocks);
      if !d.bad && SafeResidue(tail, d.residue) {
        DrainBlock(tail + blocks[0], Concat(blocks[1..]));
        PushScanIsDrain(AsWritten, tail + blocks[0]);
        PushAllAsWritten(d.residue, blocks[1..]);
      }
    }
  }

  lemma ScanWhole(v: Variant)
    ensures PushScan(v, SEVEN) == Pushed([SEVEN], [], GuardExit)
  {
    assert SEVEN[7..] == [] && SEVEN[..7] == SEVEN;
    assert PushScan(v, []) == Pushed([], [], GuardExit);
    EmptyIsNeutral([SEVEN]);
  }

  lemma ScanHead(v: Variant)
    ensures PushScan(v, SEVEN[..6]) == Pushed([], SEVEN[..6], BreakExit)
  {}

  lemma PushTwo(v: Variant, a: bytes, b: bytes)
    requires Returns(PushScan(v, a).end)
    ensures var p := PushScan(v, a);
      var t := TailAfter(v, [], p);
      var q := PushScan(v, t + b);
      Returns(q.end) ==> PushAll(v, [], [a, b]) == (p.frames + q.frames, TailAfter(v, t, q), true)
  {
    var p := PushScan(v, a);
    var t := TailAfter(v, [], p);
    assert [] + a == a && [a, b][1..] == [b] && [b][1..] == [];
    var q := PushScan(v, t + b);
    if Returns(q.end) {
      assert PushAll(v, TailAfter(v, t, q), []) == ([], TailAfter(v, t, q), true);
      assert PushAll(v, t, [b]) == (q.frames + [], TailAfter(v, t, q), true);
      EmptyIsNeutral(q.frames);
    }
  }

  /** A 7-byte message cut after its header is extracted, but its first 6 bytes stay behind as the tail. */
  lemma PushLeavesStaleTail()
    ensures IsMessage(SEVEN)
    ensures PushAll(AsWritten, [], [SEVEN[..6], SEVEN[6..]]) == ([SEVEN], SEVEN[..6], true)
    ensures PushAll(Intended, [], [SEVEN[..6], SEVEN[6..]]) == ([SEVEN], [], true)
  {
    var head, tail := SEVEN[..6], SEVEN[6..];
    assert head + tail == SEVEN;
    EmptyIsNeutral([SEVEN]);
    forall v: Variant ensures PushAll(v, [], [head, tail]) == ([SEVEN], TailAfter(v, head, PushScan(v, SEVEN)), true) {
      ScanHead(v);
      ScanWhole(v);
      PushTwo(v, head, tail);
    }
    ScanWhole(AsWritten);
    ScanWhole(Intended);
  }

  /** Pushing more blocks is pushing the first ones and going on from their tail. */
  lemma {:induction false} PushSplit(v: Variant, tail: bytes, blocks: seq<bytes>, more: seq<bytes>)
    ensures var first := PushAll(v, tail, blocks);
      PushAll(v, tail, blocks + more) ==
        if first.2 then
          var next := PushAll(v, first.1, more); (first.0 + next.0, next.1, next.2)
        else first
    decreases |blocks|
  {
    if blocks == [] {
      assert blocks + more == more;
      EmptyIsNeutral(PushAll(v, tail, more).0);
    } else {
      assert (blocks + more)[1..] == blocks[1..] + more;
      var p := PushScan(v, tail + blocks[0]);
      if Returns(p.end) {
        var t := TailAfter(v, tail, p);
        PushSplit(v, t, blocks[1..], more);
        Associate(p.frames, PushAll(v, t, blocks[1..]).0, PushAll(v, PushAll(v, t, blocks[1..]).1, more).0);
      }
    }
  }

  lemma StaleScan()
    ensures PushScan(AsWritten, SEVEN[..6] + SEVEN).end == FailedCheck
  {
    var after: bytes := [0, 0, 0, 7, 4, 9];
    assert (SEVEN[..6] + SEVEN)[7..] == after;
    assert PushScan(AsWritten, after).end == FailedCheck;
  }

  /** The stale tail is then read in front of the next message: it swallows one byte, and the rest fails the check. */
  lemma StaleTailSpoilsNext()
    ensures PushAll(AsWritten, [], [SEVEN[..6], SEVEN[6..], SEVEN]) == ([SEVEN], SEVEN[..6], false)
  {
    var head, tail := SEVEN[..6], SEVEN[6..];
    PushSplit(AsWritten, [], [head, tail], [SEVEN]);
    PushLeavesStaleTail();
    StaleScan();
    assert [head, tail] + [SEVEN] == [head, tail, SEVEN];
    assert PushAll(AsWritten, head, [SEVEN]) == ([], head, false);
    EmptyIsNeutral([SEVEN]);
  }

  /** On every stream of messages all three framers return exactly those messages. */
  lemma FramersAgree(ms: seq<bytes>, blocks: seq<bytes>)
    requires forall i :: 0 <= i < |ms| ==> IsMessage(ms[i])
    requires Received(blocks) == Concat(blocks) == Concat(ms)
    ensures Feed([], blocks) == Drained(ms, [], false)
    ensures PushAll(Intended, [], blocks) == (ms, [], true)
    ensures SafeCuts([], blocks) ==> PushAll(AsWritten, [], blocks) == (ms, [], true)
    ensures SpiderScan(Concat(ms)) == (ms, NormalEnd)
  {
    DrainMessages(ms, []);
    EmptyIsNeutral(Concat(ms));
    FeedIsDrain([], blocks);
    PushAllIsDrain([], blocks);
    PushAllAsWritten([], blocks);
    SpiderAgrees(Concat(ms));
  }
}

/** The two framers that keep state, as classes: BMP_unblocker of bmpblkparse.py and Spider of spider.py. */
module Framers {
  import opened Types
  import opened Bytes
  import opened Framing

  /** How many bytes the guard of push wants beyond its offset. */
  function Guard(v: Variant): nat {
    if v.AsWritten? then 5 else 6
  }

  lemma HeadAt(msg: bytes, offset: nat, length: nat)
    requires offset + 6 <= |msg| && length == Be32(msg, offset + 1)
    ensures Be32(msg[offset..], 1) == length
    ensures offset + length <= |msg| ==>
      msg[offset..][..length] == msg[offset..offset + length] && msg[offset..][length..] == msg[offset + length..]
  {}

  /** A round of the loop of push that ends it, by what is in front of it. */
  lemma PushScanStops(v: Variant, buf: bytes, frames: seq<bytes>, end: PushEnd)
    requires PushScan(v, buf) == Pushed([], buf, end)
    ensures frames + PushScan(v, buf).frames == frames
  {
    EmptyIsNeutral(frames);
  }

  /** A round that extracts one message. */
  lemma PushScanMoves(v: Variant, buf: bytes, frames: seq<bytes>)
    requires |buf| >= 6 && GoodHeader(buf) && 0 < Be32(buf, 1) <= |buf|
    ensures var length := Be32(buf, 1);
      var here, next := PushScan(v, buf), PushScan(v, buf[length..]);
      frames + here.frames == frames + [buf[..length]] + next.frames && here.rest == next.rest && here.end == next.end
  {
    var length := Be32(buf, 1);
    Associate(frames, [buf[..length]], PushScan(v, buf[length..]).frames);
  }

  /** The loop of push over the joined buffer; offset is where it ends. */
  method ScanBlock(v: Variant, msg: bytes) returns (frames: seq<bytes>, offset: nat, end: PushEnd)
    ensures offset <= |msg|
    ensures Pushed(frames, msg[offset..], end) == PushScan(v, msg)
  {
    frames, offset := [], 0;
    ghost var whole := PushScan(v, msg);
    ghost var rest := msg;
    EmptyIsNeutral(whole.frames);
    while |msg| - offset >= Guard(v)
      invariant offset <= |msg| && rest == msg[offset..]
      invariant whole.frames == frames + PushScan(v, rest).frames
      invariant whole.rest == PushScan(v, rest).rest && whole.end == PushScan(v, rest).end
      decreases |msg| - offset
    {
      if offset + 6 > |msg| {
        PushScanStops(v, rest, frames, ShortRead);
        return frames, offset, ShortRead;
      }
      if msg[offset] != 3 || msg[offset + 5] >= 7 {
        PushScanStops(v, rest, frames, FailedCheck);
        return frames, offset, FailedCheck;
      }
      var length := Be32(msg, offset + 1);
      HeadAt(msg, offset, length);
      if |msg| < length + offset {
        PushScanStops(v, rest, frames, BreakExit);
        return frames, offset, BreakExit;
      }
      if length == 0 {
        PushScanStops(v, rest, frames, Endless);
        return frames, offset, Endless;
      }
      PushScanMoves(v, rest, frames);
      frames, offset, rest := frames + [msg[offset..offset + length]], offset + length, rest[length..];
    }
    PushScanStops(v, rest, frames, GuardExit);
    end := GuardExit;
  }

  class BmpUnblocker {
    const variant: Variant
    var msgTail: bytes
    var bytesProcessed: nat
    var blocksProcessed: nat

    constructor (variant: Variant)
      ensures this.variant == variant && msgTail == [] && bytesProcessed == blocksProcessed == 0
    {
      this.variant := variant;
      msgTail, bytesProcessed, blocksProcessed := [], 0, 0;
    }

    /**
     * An exception loses the messages found so far and leaves the object as it was before the call. Where
     * the source loops for ever the method returns Endless.
     */
    method Push(newMsg: bytes) returns (frames: seq<bytes>, end: PushEnd)
      modifies this
      ensures var p := PushScan(variant, old(msgTail) + newMsg);
        && frames == p.frames && end == p.end
        && msgTail == TailAfter(variant, old(msgTail), p)
        && bytesProcessed == old(bytesProcessed) + (if Returns(end) then |newMsg| else 0)
        && blocksProcessed == old(blocksProcessed) + (if Returns(end) then 1 else 0)
    {
      var msg, offset := msgTail + newMsg, 0;
      frames, offset, end := ScanBlock(variant, msg);
      if end.BreakExit? || (variant.Intended? && end.GuardExit?) {
        msgTail := msg[offset..];
      }
      if Returns(end) {
        bytesProcessed, blocksProcessed := bytesProcessed + |newMsg|, blocksProcessed + 1;
      }
    }
  }

  function PrependScan(frames: seq<bytes>, r: (seq<bytes>, SpiderEnd)): (seq<bytes>, SpiderEnd) {
    (frames + r.0, r.1)
  }

  lemma PrependTwice(frames: seq<bytes>, frame: bytes, r: (seq<bytes>, SpiderEnd))
    ensures PrependScan(frames, ([frame] + r.0, r.1)) == PrependScan(frames + [frame], r)
  {
    assert frames + ([frame] + r.0) == frames + [frame] + r.0;
  }

  lemma PrependNone(r: (seq<bytes>, SpiderEnd))
    ensures PrependScan([], r) == r
  {
    EmptyIsNeutral(r.0);
  }

  lemma SpiderScanHead(accepts: bytes -> bool, stream: bytes, frames: seq<bytes>)
    requires |stream| >= 6 && GoodHeader(stream) && 6 <= Be32(stream, 1) <= |stream|
    ensures var length := Be32(stream, 1);
      PrependScan(frames, Judged(accepts, SpiderScan(stream))) ==
        if accepts(stream[..length]) then
          PrependScan(frames + [stream[..length]], Judged(accepts, SpiderScan(stream[length..])))
        else (frames, Refused)
  {
    var length := Be32(stream, 1);
    var rest := SpiderScan(stream[length..]);
    assert SpiderScan(stream).0[1..] == rest.0;
    if accepts(stream[..length]) {
      PrependTwice(frames, stream[..length], Judged(accepts, rest));
    } else {
      EmptyIsNeutral(frames);
    }
  }

  lemma SpiderScanEnds(accepts: bytes -> bool, stream: bytes, frames: seq<bytes>)
    requires |stream| < 6 || !GoodHeader(stream) || Be32(stream, 1) < 6 || |stream| < Be32(stream, 1)
    ensures PrependScan(frames, Judged(accepts, SpiderScan(stream))) == (frames, SpiderScan(stream).1)
  {
    assert frames + [] == frames;
  }

  class Spider {
    const bufsiz: nat
    var file: bytes        // what has not been read from the file yet
    var fileBuffer: bytes
    var maxRqSize: int

    ghost function Stream(): bytes
      reads this
    {
      fileBuffer + file
    }

    /** A buffer size of zero would make get read nothing for ever. */
    constructor (file: bytes, bufsiz: nat)
      requires bufsiz >= 1
      ensures this.bufsiz == bufsiz && Stream() == file
    {
      this.bufsiz, this.file := bufsiz, file;
      fileBuffer, maxRqSize := [], 0;
    }

    /** A negative size slices from the end of what is buffered, as Python slices do. */
    method Get(size: int) returns (rbuff: bytes)
      requires bufsiz >= 1
      modifies this
      ensures size >= 0 ==> var n := if size < old(|Stream()|) then size else old(|Stream()|);
        rbuff == old(Stream())[..n] && Stream() == old(Stream())[n..]
      ensures size < 0 ==> rbuff + fileBuffer == old(fileBuffer) && file == old(file)
      ensures rbuff + Stream() == old(Stream())
    {
      if size > maxRqSize {
        maxRqSize := size;
      }
      while size > |fileBuffer|
        invariant Stream() == old(Stream())
        invariant size < 0 ==> fileBuffer == old(fileBuffer) && file == old(file)
        decreases |file|
      {
        var n := if bufsiz < |file| then bufsiz else |file|;
        var moreData := file[..n];
        file := file[n..];
        fileBuffer := fileBuffer + moreData;
        if |moreData| < bufsiz {
          break;
        }
      }
      var cut := if 0 <= size <= |fileBuffer| then size
                 else if size >= 0 then |fileBuffer|
                 else if -size <= |fileBuffer| then |fileBuffer| + size
                 else 0;
      rbuff := fileBuffer[..cut];
      fileBuffer := fileBuffer[cut..];
    }

    /** An exception loses the messages found so far. */
    method Parse(accepts: bytes -> bool) returns (frames: seq<bytes>, end: SpiderEnd)
      requires bufsiz >= 1
      modifies this
      ensures (frames, end) == Judged(accepts, SpiderScan(old(Stream())))
    {
      frames := [];
      PrependNone(Judged(accepts, SpiderScan(Stream())));
      while true
        invariant Judged(accepts, SpiderScan(old(Stream())))
               == PrependScan(frames, Judged(accepts, SpiderScan(Stream())))
        decreases |Stream()|
      {
        ghost var here := Stream();
        if |here| < 6 || !GoodHeader(here) || Be32(here, 1) < 6 || |here| < Be32(here, 1) {
          SpiderScanEnds(accepts, here, frames);
        } else {
          SpiderScanHead(accepts, here, frames);
        }
        var hdr := Get(6);
        if |hdr| == 0 {
          return frames, NormalEnd;
        } else if |hdr| < 6 {
          return frames, ShortHeader;
        }
        assert hdr == here[..6] && Be32(hdr, 1) == Be32(here, 1);
        if !GoodHeader(hdr) {
          return frames, BadHeader;
        }
        var length: int := Be32(hdr, 1);
        var payload := Get(length - 6);
        if |payload| != length - 6 {
          return frames, ShortPayload;
        }
        assert hdr + payload == here[..length] && Stream() == here[length..];
        if !accepts(hdr + payload) {
          return frames, Refused;
        }
        frames := frames + [hdr + payload];
      }
    }
  }
}

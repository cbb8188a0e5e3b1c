/** The multiplexed output path of rsync/io.c: two circular buffers whose size
    may shrink for a while, a frame header reserved before its data is known,
    and arbitrary short writes to the socket. */
module Mux {
  import opened ByteOrder
  import opened Frames

  /** What the two buffers and the wire stand for: a data frame under way
      finishes before any message starts, and messages before new data. */
  predicate Stream(wire: bytes, frame: bytes, msgs: bytes, flushing: bool, data: bytes,
                   done: seq<Frame>, queue: seq<Frame>, written: bytes, sent: seq<Frame>) {
    && AllValid(done + queue) && DataOf(done + queue) + data == written && MessagesOf(done + queue) == sent
    && (if flushing then wire + frame == EncodeAll(done) && msgs == EncodeAll(queue)
        else wire + msgs == EncodeAll(done + queue))
  }

  lemma StreamQueued(wire: bytes, frame: bytes, msgs: bytes, flushing: bool, data: bytes,
                     done: seq<Frame>, queue: seq<Frame>, written: bytes, sent: seq<Frame>, f: Frame)
    requires Stream(wire, frame, msgs, flushing, data, done, queue, written, sent)
    requires f.Valid() && (f.IsData() ==> f.payload == [])
    ensures Stream(wire, frame, msgs + Encode(f), flushing, data, done, queue + [f], written,
                   if f.IsData() then sent else sent + [f])
  {
    QueueFrame(done, queue, f);
    Assoc(wire, msgs, Encode(f));
  }

  lemma Assoc(a: bytes, b: bytes, c: bytes)
    ensures a + (b + c) == (a + b) + c
  {
  }

  lemma StreamWritten(wire: bytes, frame: bytes, msgs: bytes, flushing: bool, data: bytes,
                      done: seq<Frame>, queue: seq<Frame>, written: bytes, sent: seq<Frame>, more: bytes)
    requires Stream(wire, frame, msgs, flushing, data, done, queue, written, sent)
    ensures Stream(wire, frame, msgs, flushing, data + more, done, queue, written + more, sent)
  {
    Assoc(DataOf(done + queue), data, more);
  }

  lemma SplitAt(wire: bytes, all: bytes, n: nat)
    requires n <= |all|
    ensures (wire + all[..n]) + all[n..] == wire + all
  {
    assert all[..n] + all[n..] == all;
    Assoc(wire, all[..n], all[n..]);
  }

  /** n bytes of the frame under way go out. */
  lemma StreamSentFrame(wire: bytes, frame: bytes, msgs: bytes, data: bytes,
                        done: seq<Frame>, queue: seq<Frame>, written: bytes, sent: seq<Frame>, n: nat)
    requires Stream(wire, frame, msgs, true, data, done, queue, written, sent) && n <= |frame|
    ensures Stream(wire + frame[..n], frame[n..], msgs, n < |frame|, data, done, queue, written, sent)
  {
    SplitAt(wire, frame, n);
    EncodeConcat(done, queue);
    assert frame[..|frame|] == frame;
  }

  /** n bytes of the messages go out. */
  lemma StreamSentMsgs(wire: bytes, frame: bytes, msgs: bytes, data: bytes,
                       done: seq<Frame>, queue: seq<Frame>, written: bytes, sent: seq<Frame>, n: nat)
    requires Stream(wire, frame, msgs, false, data, done, queue, written, sent) && n <= |msgs|
    ensures Stream(wire + msgs[..n], frame, msgs[n..], false, data, done, queue, written, sent)
  {
    SplitAt(wire, msgs, n);
  }

  /** With no message waiting, the pending data becomes the next frame. */
  lemma StreamStarted(wire: bytes, frame: bytes, data: bytes, done: seq<Frame>, queue: seq<Frame>, written: bytes, sent: seq<Frame>)
    requires Stream(wire, frame, [], false, data, done, queue, written, sent) && |data| < 0x1000000
    ensures var f := Frame(MSG_DATA, data);
            Stream(wire, Encode(f), [], true, [], done + queue + [f], [], written, sent)
  {
    var f := Frame(MSG_DATA, data);
    AddFrame(done + queue, f);
    assert wire + [] == wire && (done + queue + [f]) + [] == done + queue + [f];
    assert DataOf(done + queue) + data + [] == DataOf(done + queue) + data;
  }

  /** pos = first byte, len = bytes from there on, size = space in use. */
  datatype Xbuf = Xbuf(pos: nat, len: nat, size: nat)

  /** IOBUF_RESTORE_SIZE where IOBUF_WAS_REDUCED. */
  function RestoreSize(size: nat): nat {
    if size % 256 != 0 then size / 256 * 256 + 256 else size
  }

  lemma Restored(size: nat, cap: nat)
    requires cap % 256 == 0 && cap - 4 < size <= cap
    ensures RestoreSize(size) == cap
  {
  }

  /** A buffer of capacity cap that is at most 3 bytes short of it. */
  predicate Sized(x: Xbuf, cap: nat) {
    cap % 256 == 0 && 256 <= cap && cap - 4 < x.size <= cap && x.pos < x.size
  }

  const HEADER: nat := 4

  class Output {
    const outBuf: array<byte>
    var out: Xbuf
    var headerPos: nat
    var flushEnd: nat
    var msgBuf: array<byte>
    var msg: Xbuf
    var wire: bytes

    /** Bytes of the data frame being flushed that are still to go. */
    function FrameLeft(): int
      reads this`out, this`flushEnd
    {
      if flushEnd == 0 then 0 else flushEnd - out.pos
    }

    /** The out buffer holds the rest of a frame, room for the next header, and
        data.  While there is no data the header may overlap the frame. */
    ghost predicate OutOk()
      reads this`out, this`flushEnd, this`headerPos
    {
      && Sized(out, outBuf.Length) && outBuf.Length < 0x1000000
      && (flushEnd == 0 || flushEnd > out.pos)
      && var r := FrameLeft();
      && 0 <= r <= out.size && r + HEADER <= out.len
      && (out.len > r + HEADER ==> out.len <= out.size)
      && headerPos == Slot(out.size, out.pos, r) && headerPos + HEADER <= out.size
      && (out.size < outBuf.Length ==> flushEnd == out.size)
    }

    ghost predicate MsgOk()
      reads this`msg, this`msgBuf
    {
      && Sized(msg, msgBuf.Length) && msg.len <= msg.size && (msg.len == 0 ==> msg.pos == 0)
      && (msg.size < msgBuf.Length ==> msg.pos + msg.len >= msg.size)
    }

    /** The messages end where the buffer does: none is wrapped. */
    predicate MsgEnds()
      reads this`msg
    {
      msg.pos + msg.len == msg.size
    }

    ghost function FrameBytes(): bytes
      requires OutOk()
      reads this`out, this`flushEnd, this`headerPos, outBuf
    {
      Circ(outBuf[..], out.size, out.pos, FrameLeft())
    }

    ghost function Data(): bytes
      requires OutOk()
      reads this`out, this`flushEnd, this`headerPos, outBuf
    {
      Circ(outBuf[..], out.size, headerPos + HEADER, out.len - HEADER - FrameLeft())
    }

    ghost function MsgBytes(): bytes
      requires MsgOk()
      reads this`msg, this`msgBuf, msgBuf
    {
      Circ(msgBuf[..], msg.size, msg.pos, msg.len)
    }

    /** Fill in the reserved MSG_DATA header and reserve the next one. */
    method BeginFrame()
      requires OutOk() && flushEnd == 0 && out.len > HEADER
      modifies this`out, this`headerPos, this`flushEnd, outBuf
      ensures OutOk() && flushEnd != 0 && Data() == []
      ensures FrameBytes() == Encode(Frame(MSG_DATA, old(Data())))
      ensures FrameLeft() == old(out.len) && out.len == old(out.len) + HEADER && out.pos == old(out.pos)
      ensures var end := old(out.pos + out.len); out.size == if end < old(out.size) < end + 4 then end else old(out.size)
    {
      ghost var a, data := outBuf[..], Data();
      flushEnd := out.pos + out.len;
      Sival(outBuf, headerPos, MPLEX_BASE * 0x1000000 + (out.len - 4));
      HeaderThenData(a, outBuf[..], out.size, out.pos, out.len, data);
      ReserveHeader();
    }

    /** Room for the next header behind the frame, or at the front. */
    method ReserveHeader()
      requires Sized(out, outBuf.Length) && outBuf.Length < 0x1000000 && out.size == outBuf.Length
      requires HEADER < out.len <= out.size && flushEnd == out.pos + out.len && out.pos + HEADER <= out.size
      modifies this`out, this`headerPos
      ensures OutOk() && Data() == [] && FrameBytes() == old(Circ(outBuf[..], out.size, out.pos, out.len))
      ensures FrameLeft() == old(out.len) && out.len == old(out.len) + HEADER && out.pos == old(out.pos)
      ensures out.size == if flushEnd < old(out.size) < flushEnd + 4 then flushEnd else old(out.size)
    {
      headerPos := flushEnd;
      if headerPos >= out.size {
        headerPos := headerPos - out.size;
      } else if headerPos + 4 > out.size {
        CircFlat(outBuf[..], out.size, out.pos, out.len);
        CircFlat(outBuf[..], headerPos, out.pos, out.len);
        out := out.(size := headerPos);
        headerPos := 0;
      }
      out := out.(len := out.len + 4);
    }

    lemma HeaderThenData(a: bytes, b: bytes, size: nat, pos: nat, len: nat, data: bytes)
      requires pos + 4 <= size <= |a| == |b| && 4 < len <= size && len < 0x1000000
      requires data == Circ(a, size, pos + 4, len - 4)
      requires b[pos..pos + 4] == Header(MSG_DATA, len - 4) && b[..pos] == a[..pos] && b[pos + 4..] == a[pos + 4..]
      ensures Circ(b, size, pos, len) == Encode(Frame(MSG_DATA, data))
    {
      var want := Encode(Frame(MSG_DATA, data));
      forall i | 0 <= i < len ensures Circ(b, size, pos, len)[i] == want[i] {
        if i < 4 {
          assert b[pos + i] == b[pos..pos + 4][i];
        } else {
          var j := Slot(size, pos, i);
          assert j == Slot(size, pos + 4, i - 4);
          assert b[j] == a[j] by {
            if j < pos { assert b[j] == b[..pos][j] && a[j] == a[..pos][j]; }
            else { assert b[j] == b[pos + 4..][j - pos - 4] && a[j] == a[pos + 4..][j - pos - 4]; }
          }
        }
      }
    }

    /** A write(2) of n bytes of the current frame. */
    method WriteOut(n: nat)
      requires OutOk() && flushEnd != 0 && n <= FrameLeft() && out.pos + n <= out.size
      modifies this`out, this`headerPos, this`flushEnd, this`wire
      ensures OutOk()
      ensures wire == old(wire) + old(FrameBytes()[..n])
      ensures FrameBytes() == old(FrameBytes()[n..]) && Data() == old(Data())
      ensures FrameLeft() == old(FrameLeft()) - n && out.len == old(out.len) - n
      ensures out.size == old(out.size) || out.size == outBuf.Length
      ensures old(out.size) < outBuf.Length && out.size == outBuf.Length ==> FrameLeft() == 0 && out.pos == 0
    {
      CircFlat(outBuf[..], out.size, out.pos, n);
      CircTake(outBuf[..], out.size, out.pos, FrameLeft(), n);
      wire := wire + outBuf[out.pos..out.pos + n];
      AdvanceOut(n);
      ResetOut();
    }

    /** Move pos past n bytes, round the end if need be. */
    method AdvanceOut(n: nat)
      requires OutOk() && flushEnd != 0 && n <= FrameLeft() && out.pos + n <= out.size
      modifies this`out, this`flushEnd
      ensures OutOk()
      ensures FrameBytes() == old(FrameBytes()[n..]) && Data() == old(Data())
      ensures FrameLeft() == old(FrameLeft()) - n && out.len == old(out.len) - n
      ensures out.size == old(out.size) || out.size == outBuf.Length
      ensures old(out.size) < outBuf.Length && out.size == outBuf.Length ==> FrameLeft() == 0 && out.pos == 0
    {
      if out.pos + n == out.size {
        WrapOut(n);
      } else {
        CircDrop(outBuf[..], out.size, out.pos, FrameLeft(), n);
        out := out.(pos := out.pos + n, len := out.len - n);
        if out.pos == flushEnd {
          flushEnd := 0;
        }
      }
    }

    /** pos reached the end: it wraps, and the size is restored. */
    method WrapOut(n: nat)
      requires OutOk() && flushEnd != 0 && n <= FrameLeft() && out.pos + n == out.size
      modifies this`out, this`flushEnd
      ensures OutOk()
      ensures FrameBytes() == old(FrameBytes()[n..]) && Data() == old(Data())
      ensures FrameLeft() == old(FrameLeft()) - n && out.len == old(out.len) - n
      ensures out.size == old(out.size) || out.size == outBuf.Length
      ensures old(out.size) < outBuf.Length && out.size == outBuf.Length ==> FrameLeft() == 0 && out.pos == 0
    {
      ghost var buf, size, r, d := outBuf[..], out.size, FrameLeft(), out.len - HEADER - FrameLeft();
      CircDrop(buf, size, out.pos, r, n);
      CircResize(buf, size, outBuf.Length, 0, r - n);
      assert headerPos == r - n;
      if d > 0 { CircResize(buf, size, outBuf.Length, headerPos + HEADER, d); }
      Restored(out.size, outBuf.Length);
      flushEnd := flushEnd - out.size;
      out := Xbuf(0, out.len - n, RestoreSize(out.size));
      assert FrameLeft() == r - n;
    }

    /** An empty buffer starts over at the front. */
    method ResetOut()
      requires OutOk()
      modifies this`out, this`headerPos
      ensures OutOk() && FrameBytes() == old(FrameBytes()) && Data() == old(Data())
      ensures FrameLeft() == old(FrameLeft()) && out.len == old(out.len)
      ensures out.size == old(out.size) || out.size == outBuf.Length
      ensures old(out.size) < outBuf.Length && out.size == outBuf.Length ==> FrameLeft() == 0 && out.pos == 0
      ensures out.pos == old(out.pos) || out.pos == 0
    {
      if out.len == HEADER {
        Restored(out.size, outBuf.Length);
        out := out.(pos := 0, size := RestoreSize(out.size));
        headerPos := 0;
      }
    }

    /** A write(2) of n bytes of the messages. */
    method WriteMsg(n: nat)
      requires MsgOk() && n <= msg.len && msg.pos + n <= msg.size
      modifies this`msg, this`wire
      ensures MsgOk()
      ensures wire == old(wire) + old(MsgBytes()[..n]) && MsgBytes() == old(MsgBytes()[n..])
      ensures msg.size == old(msg.size) || msg.size == msgBuf.Length
      ensures old(MsgEnds()) ==> msg.len == 0 || (MsgEnds() && msg.size == old(msg.size))
      ensures msg.len == old(msg.len) - n && (old(msg.pos) + n == old(msg.size) ==> msg.pos == 0 && msg.size == msgBuf.Length)
    {
      CircFlat(msgBuf[..], msg.size, msg.pos, n);
      CircTake(msgBuf[..], msg.size, msg.pos, msg.len, n);
      wire := wire + msgBuf[msg.pos..msg.pos + n];
      AdvanceMsg(n);
      ResetMsg();
    }

    /** No messages: the buffer starts over at the front. */
    method ResetMsg()
      requires Sized(msg, msgBuf.Length) && (msg.len > 0 ==> MsgOk())
      modifies this`msg
      ensures MsgOk() && msg.len == old(msg.len) && (old(msg.len) > 0 ==> msg == old(msg))
      ensures old(msg.len) == 0 ==> msg.pos == 0 && msg.size == msgBuf.Length
    {
      if msg.len == 0 {
        Restored(msg.size, msgBuf.Length);
        msg := msg.(pos := 0, size := RestoreSize(msg.size));
      }
    }

    method AdvanceMsg(n: nat)
      requires MsgOk() && n <= msg.len && msg.pos + n <= msg.size
      modifies this`msg
      ensures Sized(msg, msgBuf.Length) && msg.len == old(msg.len) - n
      ensures msg.size == old(msg.size) || msg.size == msgBuf.Length
      ensures old(MsgEnds()) ==> msg.len == 0 || (MsgEnds() && msg.size == old(msg.size))
      ensures old(msg.pos) + n == old(msg.size) ==> msg.pos == 0 && msg.size == msgBuf.Length
      ensures msg.len > 0 ==> MsgOk() && MsgBytes() == old(MsgBytes()[n..])
    {
      ghost var size, len := msg.size, msg.len;
      CircDrop(msgBuf[..], size, msg.pos, len, n);
      msg := msg.(pos := msg.pos + n, len := msg.len - n);
      if msg.pos == msg.size {
        Restored(msg.size, msgBuf.Length);
        msg := msg.(pos := 0, size := RestoreSize(msg.size));
        CircResize(msgBuf[..], size, msgBuf.Length, 0, len - n);
      }
    }
  
    /** The copy in write_buf, once there is room. */
    method AppendOut(data: bytes)
      requires OutOk() && out.len + |data| <= out.size
      modifies this`out, outBuf
      ensures OutOk() && FrameBytes() == old(FrameBytes()) && Data() == old(Data()) + data
      ensures out == old(out).(len := old(out.len) + |data|)
    {
      if data == [] {
        assert Data() + data == Data();
      } else {
        StoreOut(FrameLeft(), data);
        out := out.(len := out.len + |data|);
      }
    }

    method StoreOut(ghost r: nat, data: bytes)
      requires out.pos < out.size <= outBuf.Length && r + HEADER <= out.len && out.len + |data| <= out.size && data != []
      requires Slot(out.size, out.pos, r) + HEADER <= out.size
      modifies outBuf
      ensures Circ(outBuf[..], out.size, out.pos, r) == old(Circ(outBuf[..], out.size, out.pos, r))
      ensures var start, d := Slot(out.size, out.pos, r) + HEADER, out.len - HEADER - r;
              Circ(outBuf[..], out.size, start, d + |data|) == old(Circ(outBuf[..], out.size, start, d)) + data
    {
      var p := out.pos + out.len;
      if p >= out.size {
        p := p - out.size;
      }
      ghost var a := outBuf[..];
      Positions(out.size, out.pos, r, out.len, |data|);
      CopyIn(outBuf, out.size, p, out.pos, data);
      BehindData(a, outBuf[..], out.size, out.pos, r, out.len, data);
    }

    /** The end of send_msg, once there is room: header and payload go in, the
        header never split across the end of the buffer. */
    method AppendMsg(code: nat, payload: bytes)
      requires MsgOk() && msg.len + |payload| + 4 + 3 <= msg.size && MPLEX_BASE + code < 256
      modifies this`msg, msgBuf
      ensures MsgOk() && MsgBytes() == old(MsgBytes()) + Encode(Frame(code, payload))
    {
      var p := msg.pos + msg.len;
      if p >= msg.size {
        p := p - msg.size;
      } else if p + 4 > msg.size {
        CircResize(msgBuf[..], msg.size, p, msg.pos, msg.len);
        msg := msg.(size := p);
        p := 0;
      }
      ghost var a, held := msgBuf[..], MsgBytes();
      var body := if p + 4 == msg.size then 0 else p + 4;
      StoreMsg(p, body, code, payload);
      CircAppend(a, msgBuf[..], msg.size, msg.pos, msg.len, Encode(Frame(code, payload)));
      msg := msg.(len := msg.len + 4 + |payload|);
    }

    /** Payload first, then the header in front of it. */
    method StoreMsg(p: nat, body: nat, code: nat, payload: bytes)
      requires Sized(msg, msgBuf.Length) && msg.len + |payload| + 4 <= msg.size
      requires p == Slot(msg.size, msg.pos, msg.len) && p + 4 <= msg.size
      requires body == if p + 4 == msg.size then 0 else p + 4
      modifies msgBuf
      ensures Copied(old(msgBuf[..]), msgBuf[..], msg.size, p, Encode(Frame(code, payload)))
    {
      CopyIn(msgBuf, msg.size, body, msg.pos, payload);
      ghost var mid := msgBuf[..];
      Sival(msgBuf, p, (MPLEX_BASE + code) * 0x1000000 + |payload|);
      HeaderOnTop(old(msgBuf[..]), mid, msgBuf[..], msg.size, p, body, code, payload);
    }
  
    /** realloc for the receiver's messages: twice the room, and the wrapped
        part moved to just after the old end. */
    method GrowMsg()
      requires MsgOk()
      modifies this`msg, this`msgBuf
      ensures MsgOk() && MsgBytes() == old(MsgBytes()) && fresh(msgBuf)
      ensures msg.len == old(msg.len) && msg.size == msgBuf.Length == 2 * old(msgBuf.Length)
    {
      var oldSize := msg.size;
      Restored(msg.size, msgBuf.Length);
      var size := RestoreSize(msg.size) * 2;
      var bigger := new byte[size](i => 0);
      forall i | 0 <= i < msgBuf.Length {
        bigger[i] := msgBuf[i];
      }
      if msg.pos + msg.len > oldSize {
        forall i | 0 <= i < msg.pos + msg.len - oldSize {
          bigger[oldSize + i] := bigger[i];
        }
      }
      msgBuf := bigger;
      msg := msg.(size := size);
    }

    // ----- what the stream stands for -----

    /** Frames in the order they go out; `queue` are messages not yet begun
        while a data frame is under way. */
    ghost var done: seq<Frame>
    ghost var queue: seq<Frame>
    /** Everything given to write_buf and to send_msg so far. */
    ghost var written: bytes
    ghost var sent: seq<Frame>

    ghost predicate Valid()
      reads this, outBuf, msgBuf
    {
      && OutOk() && MsgOk() && outBuf != msgBuf
      && Stream(wire, FrameBytes(), MsgBytes(), flushEnd != 0, Data(), done, queue, written, sent)
    }

    /** io_start_multiplex_out on fresh buffers. */
    constructor (outSize: nat, msgSize: nat)
      requires outSize % 256 == 0 && 256 <= outSize < 0x1000000 && msgSize % 256 == 0 && 256 <= msgSize
      ensures Valid() && fresh(outBuf) && fresh(msgBuf) && wire == [] && written == [] && sent == []
      ensures outBuf.Length == outSize && msgBuf.Length == msgSize
      ensures out == Xbuf(0, HEADER, outSize) && msg == Xbuf(0, 0, msgSize) && flushEnd == 0 && Data() == []
    {
      outBuf := new byte[outSize](i => 0);
      msgBuf := new byte[msgSize](i => 0);
      out, headerPos, flushEnd := Xbuf(0, HEADER, outSize), 0, 0;
      msg := Xbuf(0, 0, msgSize);
      wire, done, queue, written, sent := [], [], [], [], [];
    }

    /** Bytes that still have to go out, headers included. */
    function Owed(): int
      reads this
    {
      msg.len + (if flushEnd == 0 then (if out.len > HEADER then out.len else 0)
                 else FrameLeft() + (if out.len > HEADER + FrameLeft() then out.len - FrameLeft() else 0))
    }

    /** Nothing was given to us, nothing was lost, and the wire only grew. */
    twostate predicate SameTask()
      reads this
    {
      written == old(written) && sent == old(sent) && old(wire) <= wire
    }

    /** A full flush leaves nothing of the data: the buffer is not shortened, or
        there is no data behind the frame that shortened it, or so much that its
        own frame will shorten the buffer again. */
    ghost predicate OutWhole()
      requires OutOk()
      reads this`out, this`flushEnd, this`headerPos, outBuf
    {
      out.size == outBuf.Length || Data() == [] || FillsUp(HEADER + |Data()|)
    }

    /** A frame that ends so near the end of the buffer leaves no room for the
        next header. */
    predicate FillsUp(n: nat) { n < outBuf.Length < n + 4 }

    /** A wait for `needed` bytes that began in a whole state ends with the
        data gone. */
    ghost predicate Emptying(needed: nat)
      requires OutOk()
      reads this`out, this`flushEnd, this`headerPos, outBuf
    {
      || out.len == HEADER
      || (out.size <= needed + HEADER && (Data() == [] || FillsUp(HEADER + |Data()|) || out.size == outBuf.Length))
      || (flushEnd == 0 && out.pos == 0 && out.size == outBuf.Length && FillsUp(HEADER + |Data()|) && |Data()| <= needed)
    }

    predicate MsgWhole()
      reads this`msg, this`msgBuf
    {
      msg.size == msgBuf.Length || MsgEnds()
    }

    /** A full flush leaves nothing at all: the data will be gone, and either it
        takes the messages along, which go before new data, or they are not in a
        shortened buffer. */
    ghost predicate Whole()
      requires OutOk()
      reads this`out, this`flushEnd, this`headerPos, this`msg, this`msgBuf, outBuf
    {
      OutWhole() && (MsgWhole() || Data() != [])
    }

    /** Only bytes of a frame under way went out: the data is the same, and a
        shortened buffer is restored only at the end of that frame. */
    twostate predicate OutMoved()
      requires OutOk() && old(OutOk())
      reads this`out, this`flushEnd, this`headerPos, outBuf
    {
      && Data() == old(Data())
      && (out.size == old(out.size) || out.size == outBuf.Length)
      && (old(out.size) < outBuf.Length && out.size == outBuf.Length ==> FrameLeft() == 0 && out.pos == 0)
    }

    /** A new frame was begun and part of it went out. */
    twostate predicate Restarted()
      reads this`out, this`flushEnd
    {
      var end := old(out.pos + out.len);
      var size := if end < old(out.size) < end + 4 then end else old(out.size);
      out.size == size || (out.size == outBuf.Length && FrameLeft() == 0)
    }

    /** Only messages from the front went out. */
    twostate predicate MsgMoved()
      reads this`msg, this`msgBuf
    {
      && (msg.size == old(msg.size) || msg.size == msgBuf.Length)
      && (old(MsgEnds()) ==> msg.len == 0 || (MsgEnds() && msg.size == old(msg.size)))
      && (old(MsgWhole()) ==> MsgWhole())
    }

    method StartData()
      requires Valid() && flushEnd == 0 && msg.len == 0 && out.len > HEADER
      modifies this, outBuf
      ensures Valid() && flushEnd != 0 && SameTask() && Owed() == old(Owed()) && wire == old(wire)
      ensures msg == old(msg) && msgBuf == old(msgBuf) && Data() == [] && FrameLeft() == old(out.len)
      ensures out.len == old(out.len) + HEADER && out.pos == old(out.pos)
      ensures var end := old(out.pos + out.len); out.size == if end < old(out.size) < end + 4 then end else old(out.size)
    {
      ghost var f := Frame(MSG_DATA, Data());
      StreamStarted(wire, FrameBytes(), Data(), done, queue, written, sent);
      BeginFrame();
      done, queue := done + queue + [f], [];
    }

    /** How many bytes one turn of perform_io's output half offers to the socket:
        of an in-progress data frame first, then of messages, then of new data. */
    function Offered(msgRoom: bool): nat
      requires OutOk() && MsgOk()
      reads this`out, this`headerPos, this`flushEnd, this`msg, this`msgBuf
    {
      if flushEnd != 0 then if out.pos + FrameLeft() > out.size then out.size - out.pos else FrameLeft()
      else if msg.len > 0 then if msg.pos + msg.len > msg.size then msg.size - msg.pos else msg.len
      else if out.len > HEADER && !msgRoom then if out.pos + out.len > out.size then out.size - out.pos else out.len
      else 0
    }

    /** That turn, of whose bytes n reach the socket. */
    method Turn(msgRoom: bool, n: nat)
      requires Valid() && if Offered(msgRoom) == 0 then n == 0 else 1 <= n <= Offered(msgRoom)
      modifies this, outBuf
      ensures Valid() && SameTask() && msgBuf == old(msgBuf) && Owed() == old(Owed()) - n
      ensures msgRoom ==> out.len <= old(out.len)
      ensures msgRoom || old(flushEnd != 0) ==> OutMoved()
      ensures MsgMoved() && (old(flushEnd != 0 || msg.len == 0) ==> msg == old(msg))
      ensures old(flushEnd == 0 && msg.len > 0) ==>
                msg.len == old(msg.len) - n && (old(msg.pos) + n == old(msg.size) ==> msg.pos == 0 && msg.size == msgBuf.Length)
      ensures old(flushEnd == 0 && (msg.len > 0 || msgRoom || out.len == HEADER)) ==> out == old(out) && flushEnd == 0 && Data() == old(Data())
      ensures old(flushEnd != 0) ==> out.len == old(out.len) - n && FrameLeft() == old(FrameLeft()) - n
      ensures !msgRoom && old(flushEnd == 0 && msg.len == 0 && out.len > HEADER) ==>
                Data() == [] && Restarted() && FrameLeft() == old(out.len) - n && out.len == old(out.len) + HEADER - n
    {
      if flushEnd != 0 || (msg.len == 0 && out.len > HEADER && !msgRoom) {
        if flushEnd == 0 {
          StartData();
        }
        FlushFrame(n);
      } else if msg.len > 0 {
        FlushMsg(n);
      }
    }

    /** The same, however much the socket takes. */
    method FlushStep(msgRoom: bool) returns (n: nat)
      requires Valid()
      modifies this, outBuf
      ensures Valid() && SameTask() && msgBuf == old(msgBuf) && Owed() == old(Owed()) - n
      ensures n == 0 ==> old(msg.len == 0 && flushEnd == 0 && (msgRoom || out.len == HEADER))
      ensures msgRoom ==> out.len <= old(out.len)
      ensures msgRoom || old(flushEnd != 0) ==> OutMoved()
      ensures MsgMoved() && (old(flushEnd != 0 || msg.len == 0) ==> msg == old(msg))
      ensures old(flushEnd != 0) ==> out.len == old(out.len) - n
      ensures old(flushEnd == 0 && (msg.len > 0 || msgRoom || out.len == HEADER)) ==> out == old(out) && flushEnd == 0 && Data() == old(Data())
      ensures !msgRoom && old(flushEnd == 0 && msg.len == 0 && out.len > HEADER) ==> Data() == [] && Restarted()
    {
      n := 0;
      if Offered(msgRoom) > 0 {
        n :| 1 <= n <= Offered(msgRoom);
      }
      Turn(msgRoom, n);
    }

    method FlushFrame(n: nat)
      requires Valid() && flushEnd != 0 && 1 <= n <= FrameLeft() && out.pos + n <= out.size
      modifies this`out, this`headerPos, this`flushEnd, this`wire
      ensures Valid() && SameTask() && Owed() == old(Owed()) - n && out.len == old(out.len) - n && OutMoved()
      ensures FrameLeft() == old(FrameLeft()) - n
    {
      StreamSentFrame(wire, FrameBytes(), MsgBytes(), Data(), done, queue, written, sent, n);
      WriteOut(n);
    }
  
    method FlushMsg(n: nat)
      requires Valid() && flushEnd == 0 && 1 <= n <= msg.len && msg.pos + n <= msg.size
      modifies this`msg, this`wire
      ensures Valid() && SameTask() && Owed() == old(Owed()) - n && MsgMoved() && Data() == old(Data())
      ensures msg.len == old(msg.len) - n && (old(msg.pos) + n == old(msg.size) ==> msg.pos == 0 && msg.size == msgBuf.Length)
    {
      StreamSentMsgs(wire, FrameBytes(), MsgBytes(), Data(), done, queue, written, sent, n);
      WriteMsg(n);
    }

    /** perform_io until `needed` bytes fit in the out buffer; false is its
        fatal exit for a request no flushing can satisfy. */
    method NeedOutRoom(needed: nat) returns (ok: bool)
      requires Valid()
      modifies this, outBuf
      ensures Valid() && SameTask() && msgBuf == old(msgBuf)
      ensures ok ==> out.len + needed <= out.size
      ensures ok <==> needed + HEADER <= old(out.size)
      ensures ok && needed + HEADER == old(out.size) && old(OutWhole()) ==> out.len == HEADER && (old(Data()) != [] ==> msg.len == 0)
      ensures old(MsgWhole()) ==> MsgWhole()
      ensures old(Data()) == [] && needed + HEADER == old(out.size) ==> Data() == [] && msg == old(msg)
      ensures msg.size == old(msg.size) || msg.size == msgBuf.Length
      ensures ok && old(out.size) < outBuf.Length && needed + HEADER + old(|Data()|) <= outBuf.Length ==>
                Data() == old(Data()) && (out.size == old(out.size) || out.len == HEADER + |Data()|)
    {
      if out.size - HEADER < needed {
        return false;
      }
      ghost var stops := out.size < outBuf.Length && needed + HEADER + |Data()| <= outBuf.Length;
      while out.len + needed > out.size
        invariant Valid() && SameTask() && msgBuf == old(msgBuf)
        invariant needed + HEADER == old(out.size) && old(OutWhole()) ==> Emptying(needed)
        invariant old(MsgWhole()) ==> MsgWhole()
        invariant Data() == old(Data()) || msg.len == 0
        invariant old(Data()) == [] && needed + HEADER == old(out.size) ==>
                    msg == old(msg) && out.len == HEADER + FrameLeft() && (out.size == old(out.size) || FrameLeft() == 0)
        invariant msg.size == old(msg.size) || msg.size == msgBuf.Length
        invariant stops ==> Data() == old(Data())
                            && ((out.size == old(out.size) && flushEnd != 0) || (out.size == outBuf.Length && FrameLeft() == 0))
        decreases Owed()
      {
        var n := StepTowards(needed);
      }
      ok := true;
    }

    /** One turn of waiting for room. */
    method StepTowards(needed: nat) returns (n: nat)
      requires Valid() && out.len + needed > out.size
      modifies this, outBuf
      ensures Valid() && SameTask() && msgBuf == old(msgBuf) && Owed() == old(Owed()) - n && MsgMoved()
      ensures n == 0 ==> old(msg.len == 0 && flushEnd == 0 && out.len == HEADER)
      ensures old(flushEnd != 0) ==> OutMoved() && out.len == old(out.len) - n
      ensures Data() == old(Data()) || old(msg.len) == 0
      ensures old(flushEnd != 0 || msg.len == 0) ==> msg == old(msg)
      ensures old(Emptying(needed)) ==> Emptying(needed)
    {
      n := FlushStep(false);
    }

    /** The same for the message buffer. */
    method NeedMsgRoom(needed: nat) returns (ok: bool)
      requires Valid()
      modifies this, outBuf
      ensures Valid() && SameTask() && msgBuf == old(msgBuf)
      ensures ok ==> msg.len + needed <= msg.size
      ensures ok <==> needed <= old(msg.size)
      ensures out.len <= old(out.len) && Data() == old(Data())
      ensures old(flushEnd == 0) ==> out == old(out) && flushEnd == 0
      ensures needed == old(msg.size) && old(MsgWhole()) ==> msg.len == 0
    {
      if msg.size < needed {
        return false;
      }
      while msg.len + needed > msg.size
        invariant Valid() && SameTask() && msgBuf == old(msgBuf) && needed <= msgBuf.Length
        invariant out.len <= old(out.len) && Data() == old(Data())
        invariant old(flushEnd == 0) ==> out == old(out) && flushEnd == 0
        invariant old(MsgEnds()) ==> msg.len == 0 || (MsgEnds() && msg.size == old(msg.size))
        decreases Owed()
      {
        var n := FlushStep(true);
      }
      ok := true;
    }

    /** write_buf. */
    method WriteBuf(data: bytes) returns (ok: bool)
      requires Valid()
      modifies this, outBuf
      ensures Valid() && sent == old(sent) && old(wire) <= wire && msgBuf == old(msgBuf)
      ensures written == if ok then old(written) + data else old(written)
      ensures |data| + HEADER + 3 <= outBuf.Length ==> ok
    {
      ok := true;
      if out.len + |data| > out.size {
        ok := NeedOutRoom(|data|);
      }
      if ok {
        AcceptData(data);
      }
    }

    method AcceptData(data: bytes)
      requires Valid() && out.len + |data| <= out.size
      modifies this`out, this`written, outBuf
      ensures Valid() && written == old(written) + data && Data() == old(Data()) + data
      ensures out == old(out).(len := old(out.len) + |data|)
    {
      StreamWritten(wire, FrameBytes(), MsgBytes(), flushEnd != 0, Data(), done, queue, written, sent, data);
      AppendOut(data);
      written := written + data;
    }

    /** send_msg without character conversion: a receiver grows its buffer
        rather than wait. */
    method SendMsg(code: nat, payload: bytes, amReceiver: bool) returns (ok: bool)
      requires Valid() && MPLEX_BASE + code < 256 && (code == MSG_DATA ==> payload == [])
      requires |payload| < 0x1000000
      modifies this, outBuf, msgBuf
      ensures Valid() && written == old(written) && old(wire) <= wire
      ensures msgBuf == old(msgBuf) || fresh(msgBuf)
      ensures sent == if ok && code != MSG_DATA then old(sent) + [Frame(code, payload)] else old(sent)
      ensures |payload| + (if amReceiver then 7 else 10) <= old(msgBuf.Length) ==> ok
    {
      ok := MakeMsgRoom(|payload| + 4 + 3, amReceiver);
      if ok {
        QueueMsg(code, payload);
      }
    }

    method MakeMsgRoom(needed: nat, amReceiver: bool) returns (ok: bool)
      requires Valid()
      modifies this, outBuf
      ensures Valid() && SameTask() && (msgBuf == old(msgBuf) || fresh(msgBuf))
      ensures ok ==> msg.len + needed <= msg.size
      ensures needed + (if amReceiver then 0 else 3) <= old(msgBuf.Length) ==> ok
    {
      ok := true;
      if msg.len + needed > msg.size {
        if amReceiver {
          GrowMsg();
          ok := msg.len + needed <= msg.size;
        } else {
          ok := NeedMsgRoom(needed);
        }
      }
    }

    /** The data side does not see a message come in. */
    method AppendOnly(code: nat, payload: bytes)
      requires OutOk() && MsgOk() && outBuf != msgBuf
      requires msg.len + |payload| + 4 + 3 <= msg.size && MPLEX_BASE + code < 256
      modifies this`msg, msgBuf
      ensures OutOk() && MsgOk() && FrameBytes() == old(FrameBytes()) && Data() == old(Data())
      ensures MsgBytes() == old(MsgBytes()) + Encode(Frame(code, payload))
    {
      AppendMsg(code, payload);
    }

    method QueueMsg(code: nat, payload: bytes)
      requires Valid() && MPLEX_BASE + code < 256 && (code == MSG_DATA ==> payload == []) && |payload| < 0x1000000
      requires msg.len + |payload| + 4 + 3 <= msg.size
      modifies this`msg, this`queue, this`sent, msgBuf
      ensures Valid()
      ensures sent == if code != MSG_DATA then old(sent) + [Frame(code, payload)] else old(sent)
    {
      ghost var f := Frame(code, payload);
      StreamQueued(wire, FrameBytes(), MsgBytes(), flushEnd != 0, Data(), done, queue, written, sent, f);
      AppendOnly(code, payload);
      NoteQueued(f);
    }

    /** The stream that is promised now has f in it. */
    ghost method NoteQueued(f: Frame)
      requires OutOk() && MsgOk() && outBuf != msgBuf
      requires Stream(wire, FrameBytes(), MsgBytes(), flushEnd != 0, Data(), done, queue + [f], written,
                      if f.IsData() then sent else sent + [f]) == true
      modifies this`queue, this`sent
      ensures Valid() && queue == old(queue) + [f] && sent == if f.IsData() then old(sent) else old(sent) + [f]
    {
      queue, sent := queue + [f], if f.IsData() then sent else sent + [f];
    }

    /** io_flush(FULL_FLUSH), as written: it asks for as much room as the
        buffers have now, which a shortened buffer satisfies a little early.
        From a whole state nothing is left, and the wire parses into exactly what
        was written and sent.  With a shortened data buffer and no more data
        behind its frame than it is short of, that data stays. */
    method FullFlush()
      requires Valid()
      modifies this, outBuf
      ensures Valid() && SameTask() && msgBuf == old(msgBuf)
      ensures old(Whole()) ==>
                Owed() == 0 && ParseAll(wire).rest == []
                && DataOf(ParseAll(wire).frames) == written && MessagesOf(ParseAll(wire).frames) == sent
      ensures old(out.size) < outBuf.Length && old(|Data()|) <= outBuf.Length - old(out.size) ==> Data() == old(Data())
      ensures out.len <= HEADER + (outBuf.Length - old(out.size))
      ensures msg.len <= msgBuf.Length - old(msg.size)
    {
      FlushOut();
      FlushMessages();
      if Owed() == 0 { WireIsFaithful(); }
    }

    /** There is the room a wait for all of a buffer of this size asks for. */
    predicate OutRoom(size: nat)
      reads this`out
    {
      out.len == HEADER || out.len + (size - HEADER) <= out.size
    }

    predicate MsgRoom(size: nat)
      reads this`msg
    {
      msg.len == 0 || msg.len + size <= msg.size
    }

    /** And no other states are safe: from any that is not whole, the socket can
        take the bytes in such pieces that both waits of a full flush are over
        and something is left.  These are the turns of a full flush, each made
        while its wait goes on, with the pieces chosen. */
    method UnluckyFlush()
      requires Valid() && !Whole()
      modifies this, outBuf
      ensures Valid() && SameTask() && Owed() > 0
      ensures OutRoom(old(out.size)) && MsgRoom(old(msg.size))
    {
      if out.size == outBuf.Length || out.len == HEADER + FrameLeft() || FillsUp(out.len - FrameLeft()) {
        FlushOut();
        UnluckyMessages();
      } else {
        UnluckyData();
        FlushMessages();
      }
    }

    /** The wait for room ends with data left, and no frame under way if there
        are messages as well. */
    method UnluckyData()
      requires Valid() && !OutWhole()
      modifies this, outBuf
      ensures Valid() && SameTask() && msgBuf == old(msgBuf) && out.len > HEADER && OutRoom(old(out.size))
      ensures msg.len == 0 || (msg == old(msg) && flushEnd == 0)
    {
      var needed := out.size - HEADER;
      Turn(false, FrameLeft());
      if out.len + needed > out.size {
        DrainMessages(needed);
        Turn(false, out.len - 1);
      }
    }

    method DrainMessages(needed: nat)
      requires Valid() && flushEnd == 0 && out.len + needed > out.size
      modifies this, outBuf
      ensures Valid() && SameTask() && msgBuf == old(msgBuf) && msg.len == 0
      ensures out == old(out) && flushEnd == 0 && Data() == old(Data())
    {
      while msg.len > 0
        invariant Valid() && SameTask() && msgBuf == old(msgBuf)
        invariant out == old(out) && flushEnd == 0 && Data() == old(Data())
        decreases msg.len
      {
        Turn(false, Offered(false));
      }
    }

    /** The wait for room ends with messages left. */
    method UnluckyMessages()
      requires Valid() && out.len == HEADER && !MsgWhole()
      modifies this, outBuf
      ensures Valid() && SameTask() && out == old(out) && 0 < msg.len && MsgRoom(old(msg.size))
    {
      var needed := msg.size;
      Turn(true, Offered(true));
      if msg.len + needed > msg.size {
        Turn(true, msg.len - 1);
      }
    }

    method FlushOut()
      requires Valid()
      modifies this, outBuf
      ensures Valid() && SameTask() && msgBuf == old(msgBuf)
      ensures old(OutWhole()) ==> out.len == HEADER && (old(Data()) != [] ==> msg.len == 0)
      ensures old(MsgWhole()) ==> MsgWhole()
      ensures old(Data()) == [] ==> msg == old(msg)
      ensures msg.size == old(msg.size) || msg.size == msgBuf.Length
      ensures old(out.size) < outBuf.Length && old(|Data()|) <= outBuf.Length - old(out.size) ==>
                Data() == old(Data())
      ensures out.len <= HEADER + (outBuf.Length - old(out.size))
    {
      if out.len > HEADER {
        var ok := NeedOutRoom(out.size - HEADER);
      }
    }

    method FlushMessages()
      requires Valid()
      modifies this, outBuf
      ensures Valid() && SameTask() && msgBuf == old(msgBuf)
      ensures out.len <= old(out.len) && Data() == old(Data())
      ensures old(flushEnd == 0 || msg.len == 0) ==> out == old(out)
      ensures old(MsgWhole() || msg.len == 0) ==> msg.len == 0
      ensures MsgRoom(old(msg.size))
      ensures msg.len <= msgBuf.Length - old(msg.size)
    {
      if msg.len > 0 {
        var ok := NeedMsgRoom(msg.size);
      }
    }

    /** At every moment the wire parses into whole frames, in order, with at
        most one frame cut short; once nothing is owed, what was parsed is
        exactly what was written and sent. */
    lemma WireIsFaithful()
      requires Valid()
      ensures wire <= EncodeAll(done + queue) && ParseAll(wire).frames <= done + queue
      ensures Owed() == 0 ==>
                && ParseAll(wire) == Parsed(done + queue, [])
                && DataOf(done + queue) == written && MessagesOf(done + queue) == sent
    {
      EncodeConcat(done, queue);
      assert wire <= EncodeAll(done + queue);
      ParseCut(done + queue, wire);
      if Owed() == 0 {
        assert wire + MsgBytes() == wire && DataOf(done + queue) + Data() == DataOf(done + queue);
        ParseEncoded(done + queue, []);
        assert wire + [] == wire && (done + queue) + [] == done + queue;
      }
    }
  }

  /** Such a flush does leave something: 249 bytes are written to buffers of
      256, five bytes of their frame go out, one more byte is written, and
      after io_flush it is still there. */
  method ShortFlushHappens(data: bytes, x: byte) returns (o: Output)
    requires |data| == 249
    ensures fresh(o) && o.Valid() && o.written == data + [x] && o.Data() == [x] && o.Owed() > 0
  {
    o := ShortenedOutput(data);
    o.AcceptData([x]);
    o.FullFlush();
  }

  method ShortenedOutput(data: bytes) returns (o: Output)
    requires |data| == 249
    ensures fresh(o) && fresh(o.outBuf) && fresh(o.msgBuf) && o.Valid() && o.written == data && o.Data() == []
    ensures o.outBuf.Length == 256 && o.out.size == 253 && o.out.len == 252
  {
    o := new Output(256, 256);
    o.AcceptData(data);
    o.StartData();
    o.FlushFrame(5);
  }

  /** One frame more, in every view of the stream. */
  lemma AddFrame(all: seq<Frame>, f: Frame)
    requires AllValid(all) && f.Valid()
    ensures AllValid(all + [f]) && EncodeAll(all + [f]) == EncodeAll(all) + Encode(f)
    ensures DataOf(all + [f]) == DataOf(all) + (if f.IsData() then f.payload else [])
    ensures MessagesOf(all + [f]) == MessagesOf(all) + (if f.IsData() then [] else [f])
  {
    OneMore(all, f);
    EncodeConcat(all, [f]);
    EncodeOne(f);
  }

  lemma QueueFrame(done: seq<Frame>, queue: seq<Frame>, f: Frame)
    requires AllValid(done + queue) && f.Valid() && (f.IsData() ==> f.payload == [])
    ensures AllValid(done + (queue + [f]))
    ensures EncodeAll(done + (queue + [f])) == EncodeAll(done + queue) + Encode(f)
    ensures EncodeAll(queue + [f]) == EncodeAll(queue) + Encode(f)
    ensures DataOf(done + (queue + [f])) == DataOf(done + queue)
    ensures MessagesOf(done + (queue + [f])) == if f.IsData() then MessagesOf(done + queue) else MessagesOf(done + queue) + [f]
  {
    AddFrame(done + queue, f);
    assert done + (queue + [f]) == (done + queue) + [f];
    EncodeConcat(queue, [f]);
    EncodeOne(f);
  }

  lemma HeaderOnTop(a: bytes, mid: bytes, b: bytes, size: nat, p: nat, body: nat, code: nat, payload: bytes)
    requires p + 4 <= size <= |a| == |b| && 4 + |payload| <= size
    requires body == if p + 4 == size then 0 else p + 4
    requires Copied(a, mid, size, body, payload)
    requires b[p..p + 4] == Header(code, |payload|) && b[..p] == mid[..p] && b[p + 4..] == mid[p + 4..]
    ensures Copied(a, b, size, p, Encode(Frame(code, payload)))
  {
    var all := Encode(Frame(code, payload));
    forall j | 0 <= j < |a| && !(p <= j < p + 4) ensures b[j] == mid[j] {
      if j < p { assert b[j] == b[..p][j] && mid[j] == mid[..p][j]; }
      else { assert b[j] == b[p + 4..][j - p - 4] && mid[j] == mid[p + 4..][j - p - 4]; }
    }
    forall i | 0 <= i < |all| ensures b[Slot(size, p, i)] == all[i] {
      if i < 4 {
        assert b[p + i] == b[p..p + 4][i];
      } else {
        assert Slot(size, p, i) == Slot(size, body, i - 4);
      }
    }
  }

  /** Frame, header, data and free space follow each other round the buffer. */
  lemma Positions(size: nat, pos: nat, r: nat, len: nat, m: nat)
    requires pos < size && r + HEADER <= len && len + m <= size
    requires Slot(size, pos, r) + HEADER <= size
    ensures var p := Slot(size, pos, len);
            && Slot(size, Slot(size, pos, r) + HEADER, len - HEADER - r) == p
            && (m > 0 ==> p < size && (p < pos ==> p + m <= pos))
            && forall i :: 0 <= i < r ==> !InSpan(size, p, m, Slot(size, pos, i))
  {
  }

  /** Copying behind the data extends it and leaves the frame alone. */
  lemma BehindData(a: bytes, b: bytes, size: nat, pos: nat, r: nat, len: nat, data: bytes)
    requires pos < size <= |a| && r + HEADER <= len && len + |data| <= size && data != []
    requires Slot(size, pos, r) + HEADER <= size && Slot(size, pos, len) < size
    requires Copied(a, b, size, Slot(size, pos, len), data)
    ensures Circ(b, size, pos, r) == Circ(a, size, pos, r)
    ensures var start, d := Slot(size, pos, r) + HEADER, len - HEADER - r;
            Circ(b, size, start, d + |data|) == Circ(a, size, start, d) + data
  {
    Positions(size, pos, r, len, |data|);
    CircKeep(a, b, size, pos, r, Slot(size, pos, len), data);
    CircAppend(a, b, size, Slot(size, pos, r) + HEADER, len - HEADER - r, data);
  }

  /** What lies in front of a copy is not touched by it. */
  lemma CircKeep(a: bytes, b: bytes, size: nat, pos: nat, n: nat, first: nat, data: bytes)
    requires pos < size <= |a| && n <= size && first < size && |data| <= size && Copied(a, b, size, first, data)
    requires forall i :: 0 <= i < n ==> !InSpan(size, first, |data|, Slot(size, pos, i))
    ensures Circ(b, size, pos, n) == Circ(a, size, pos, n)
  {
  }

  lemma CircTake(buf: bytes, size: nat, pos: nat, n: nat, k: nat)
    requires pos < size <= |buf| && k <= n <= size
    ensures Circ(buf, size, pos, n)[..k] == Circ(buf, size, pos, k)
  {
  }

  /** Bytes that do not wrap are the same whatever the size. */
  lemma CircResize(buf: bytes, size: nat, size': nat, pos: nat, n: nat)
    requires pos + n <= size <= |buf| && pos + n <= size' <= |buf|
    ensures Circ(buf, size, pos, n) == Circ(buf, size', pos, n)
  {
  }
}

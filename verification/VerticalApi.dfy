/** The vertical API: the read loop cuts a byte stream into packets, the write loop prints packets into one. */
module VerticalApi {
  import opened Basics
  import opened Bytes
  import opened VerticalTypes

  datatype FromVert =
    | FromAnnounce(announce: Announce)
    | FromRegister(notify: Notify)
    | FromValidation(validation: Validation)
    | FromUnregister

  // ---- what a stream means ----

  predicate IsFrame(f: bytes) {
    |f| >= HEADER_SIZE && |f| == ParseHeader(f).Size
  }

  predicate AreFrames(frames: seq<bytes>) {
    forall i :: 0 <= i < |frames| ==> IsFrame(frames[i])
  }

  /** The whole frames at the start of a stream: up to the first one cut short or of impossible size. */
  function SplitFrames(stream: bytes): (frames: seq<bytes>)
    ensures AreFrames(frames)
  {
    if |stream| < HEADER_SIZE then [] else
    var size := ParseHeader(stream).Size;
    if size < HEADER_SIZE || |stream| < size then [] else
    [stream[..size]] + SplitFrames(stream[size..])
  }

  /** Whether no frame that the loop comes to has a size below its own header's. */
  predicate WellFramed(stream: bytes) {
    |stream| >= HEADER_SIZE ==>
      var size := ParseHeader(stream).Size;
      size >= HEADER_SIZE && (|stream| >= size ==> WellFramed(stream[size..]))
  }

  /** The packet in a frame: none if the type is unknown or the frame too short for its type. */
  function Packet(frame: bytes): Option<FromVert>
    requires IsFrame(frame)
  {
    var h := ParseHeader(frame);
    if |frame| < 8 then None
    else if h.Type == GOSSIP_ANNOUNCE then Some(FromAnnounce(ParseAnnounce(h, frame)))
    else if h.Type == GOSSIP_NOTIFY then Some(FromRegister(ParseNotify(frame)))
    else if h.Type == GOSSIP_VALIDATION then Some(FromValidation(ParseValidation(frame)))
    else None
  }

  function AsSeq<T>(o: Option<T>): seq<T> {
    if o.Some? then [o.value] else []
  }

  function Packets(frames: seq<bytes>): seq<FromVert>
    requires AreFrames(frames)
  {
    if frames == [] then [] else AsSeq(Packet(frames[0])) + Packets(frames[1..])
  }

  /** Everything a stream makes the read loop send to the main package. */
  function Emitted(stream: bytes): seq<FromVert> {
    Packets(SplitFrames(stream))
  }

  // ---- the connection ----

  datatype ReadError = EOF | UnexpectedEOF

  class Connection {
    var incoming: bytes  // what the peer has still to deliver before it closes its side
    var outgoing: bytes  // what was written to the peer

    constructor (stream: bytes)
      ensures incoming == stream && outgoing == []
    {
      incoming, outgoing := stream, [];
    }

    /** io.ReadFull(conn, buf[from:]) */
    method ReadFull(buf: Slice, from: nat) returns (n: nat, err: Option<ReadError>)
      requires buf.Valid() && from <= buf.len
      modifies this`incoming, buf.arr
      ensures n == Min(|old(incoming)|, buf.len - from) && incoming == old(incoming)[n..]
      ensures buf.arr[..] == old(buf.arr[..from]) + old(incoming)[..n] + old(buf.arr[from + n..])
      ensures err == if n == buf.len - from then None else if n == 0 then Some(EOF) else Some(UnexpectedEOF)
      ensures err.None? ==> buf.Content() == old(buf.arr[..from]) + old(incoming)[..n]
    {
      n := Min(|incoming|, buf.len - from);
      CopyInto(buf.arr, from, incoming[..n]);
      incoming := incoming[n..];
      err := if n == buf.len - from then None else if n == 0 then Some(EOF) else Some(UnexpectedEOF);
    }

    method Write(b: bytes)
      modifies this`outgoing
      ensures outgoing == old(outgoing) + b
    {
      outgoing := outgoing + b;
    }
  }

  // ---- the two loops ----

  class VerticalApi {
    var vertToMainChan: seq<FromVert>  // everything sent on the channel so far

    constructor ()
      ensures vertToMainChan == []
    {
      vertToMainChan := [];
    }

    /** The type switch of the read loop. */
    method Deliver(msgHdr: Header, buf: bytes)
      requires IsFrame(buf) && ParseHeader(buf) == msgHdr
      modifies this
      ensures vertToMainChan == old(vertToMainChan) + AsSeq(Packet(buf))
    {
      if msgHdr.Type == GOSSIP_ANNOUNCE {
        var ga := new GossipAnnounce(msgHdr);
        var _, err := ga.Unmarshal(buf);
        if err.None? {
          vertToMainChan := vertToMainChan + [FromAnnounce(ga.Ga)];
        }
      } else if msgHdr.Type == GOSSIP_NOTIFY {
        var gn := new GossipNotify(msgHdr);
        var _, err := gn.Unmarshal(buf);
        if err.None? {
          vertToMainChan := vertToMainChan + [FromRegister(gn.Gn)];
        }
      } else if msgHdr.Type == GOSSIP_VALIDATION {
        var gv := new GossipValidation(msgHdr);
        var _, err := gv.Unmarshal(buf);
        if err.None? {
          vertToMainChan := vertToMainChan + [FromValidation(gv.Gv)];
        }
      }
    }

    /** Makes room for the rest of a frame and reads it. */
    method ReadBody(conn: Connection, buf: Slice, size: nat) returns (r: Slice, err: Option<ReadError>)
      requires buf.Valid() && buf.len <= size
      modifies conn`incoming, buf.arr
      ensures r.Valid() && r.len == size && r.arr.Length >= buf.len && (r.arr == buf.arr || fresh(r.arr))
      ensures err.None? <==> |old(conn.incoming)| >= size - buf.len
      ensures err.Some? ==> conn.incoming == []
      ensures err.None? ==> r.Content() + conn.incoming == old(buf.Content() + conn.incoming)
    {
      r := Grow(buf, size - buf.len);
      r := Slice(r.arr, size);
      assert r.arr[..buf.len] == buf.Content();
      var n;
      n, err := conn.ReadFull(r, buf.len);
    }

    /** Reads until the peer closes its side, or until slices.Grow panics on a negative count. */
    method HandleConnection(conn: Connection) returns (panicked: bool)
      modifies this, conn`incoming
      ensures panicked == !WellFramed(old(conn.incoming))
      ensures vertToMainChan == old(vertToMainChan) + Emitted(old(conn.incoming)) + [FromUnregister]
    {
      hide SplitFrames, Packets, Packet, WellFramed, Emitted;
      var buf := NewSlice(HEADER_SIZE, HEADER_SIZE);
      ghost var well, all := WellFramed(conn.incoming), vertToMainChan + Emitted(conn.incoming);
      panicked := false;
      while true
        invariant buf.Valid() && fresh(buf.arr) && buf.arr.Length >= HEADER_SIZE
        invariant !panicked && WellFramed(conn.incoming) == well
        invariant vertToMainChan + Emitted(conn.incoming) == all
        decreases |conn.incoming|
      {
        ghost var stream := conn.incoming;
        buf := Slice(buf.arr, HEADER_SIZE);
        var nRead, err := conn.ReadFull(buf, 0);
        if err.Some? {
          NothingEmitted(stream);
          if err.value.EOF? {
            break;
          }
          NothingEmitted([]);
          continue;
        }
        var msgHdr := ParseHeader(buf.Content());
        if msgHdr.Size < nRead {
          NothingEmitted(stream);
          panicked := true;
          break;
        }
        var bodyErr;
        buf, bodyErr := ReadBody(conn, buf, msgHdr.Size);
        if bodyErr.Some? {
          NothingEmitted(stream);
          NothingEmitted([]);
          continue;
        }
        FrameEmitted(stream, buf.Content(), conn.incoming, vertToMainChan);
        Deliver(msgHdr, buf.Content());
      }
      vertToMainChan := vertToMainChan + [FromUnregister];  // deferred
    }

    method Print(msg: Notification, buf: Slice) returns (r: Slice, err: Option<VerticalTypes.Error>)
      requires buf.Valid()
      modifies buf.arr
      ensures r.Valid() && (r.arr == buf.arr || fresh(r.arr))
      ensures err.None? && r.Content() == NotificationFrame(msg)
    {
      var vmsg := new GossipNotification(Header(0, GOSSIP_NOTIFICATION), msg);
      vmsg.RecalcSize();
      r, err := vmsg.Marshal(buf);
    }

    /** Writes the notifications, reusing one buffer. */
    method WriteToConnection(conn: Connection, msgs: seq<Notification>)
      modifies conn`outgoing
      ensures conn.outgoing == old(conn.outgoing) + Concat(Printed(msgs))
    {
      ghost var before := conn.outgoing;
      var buf := NewSlice(0, 4096);
      for i := 0 to |msgs|
        invariant buf.Valid() && fresh(buf.arr)
        invariant conn.outgoing == before + Concat(Printed(msgs[..i]))
      {
        var err;
        buf, err := Print(msgs[i], buf);
        if err.Some? {
          continue;
        }
        conn.Write(buf.Content());
        PrintedOneMore(before, msgs, i);
      }
      assert msgs[..|msgs|] == msgs;
    }
  }

  // ---- frames and streams ----

  function Concat(frames: seq<bytes>): bytes {
    if frames == [] then [] else frames[0] + Concat(frames[1..])
  }

  /** What the printer makes of each notification: its size in the header is cut to 16 bits. */
  function Printed(msgs: seq<Notification>): (frames: seq<bytes>)
    ensures |frames| == |msgs|
  {
    if msgs == [] then [] else [NotificationFrame(msgs[0])] + Printed(msgs[1..])
  }

  function NotificationFrame(n: Notification): bytes {
    NotificationBytes(Header(TruncatedSize(NotificationSize(n)), GOSSIP_NOTIFICATION), n)
  }

  lemma FrameFirst(f: bytes, rest: bytes)
    requires IsFrame(f)
    ensures SplitFrames(f + rest) == [f] + SplitFrames(rest) && WellFramed(f + rest) == WellFramed(rest)
  {
    var stream := f + rest;
    assert stream[..|f|] == f && stream[|f|..] == rest;
    assert ParseHeader(stream) == ParseHeader(f);
    assert SplitFrames(stream) == [stream[..|f|]] + SplitFrames(stream[|f|..]);
  }

  lemma FrameEmitted(stream: bytes, f: bytes, rest: bytes, before: seq<FromVert>)
    requires |stream| >= HEADER_SIZE && stream == f + rest && |f| == ParseHeader(stream).Size >= HEADER_SIZE
    ensures ParseHeader(f) == ParseHeader(stream[..HEADER_SIZE]) == ParseHeader(stream) && IsFrame(f)
    ensures before + AsSeq(Packet(f)) + Emitted(rest) == before + Emitted(stream)
    ensures WellFramed(stream) == WellFramed(rest)
  {
    assert ParseHeader(f) == ParseHeader(stream);
    FrameFirst(f, rest);
    PacketsPush(f, SplitFrames(rest));
    Regroup(before, AsSeq(Packet(f)), Emitted(rest));
  }

  lemma PacketsPush(f: bytes, frames: seq<bytes>)
    requires IsFrame(f) && AreFrames(frames)
    ensures AreFrames([f] + frames) && Packets([f] + frames) == AsSeq(Packet(f)) + Packets(frames)
  {
    var more := [f] + frames;
    assert more[0] == f && more[1..] == frames;
  }

  lemma NothingEmitted(tail: bytes)
    requires Stuck(tail)
    ensures Emitted(tail) == []
    ensures WellFramed(tail) <==> |tail| < HEADER_SIZE || ParseHeader(tail).Size >= HEADER_SIZE
  {
  }

  lemma ConcatPush(f: bytes, frames: seq<bytes>)
    ensures Concat([f] + frames) == f + Concat(frames)
  {
    assert ([f] + frames)[1..] == frames;
  }

  lemma ConcatOneMore(frames: seq<bytes>, f: bytes)
    ensures Concat(frames + [f]) == Concat(frames) + f
  {
    if frames == [] {
      assert frames + [f] == [f];
      assert Concat([f]) == f + Concat([]) == f;
    } else {
      ConcatOneMore(frames[1..], f);
      assert (frames + [f])[1..] == frames[1..] + [f];
    }
  }

  lemma PrintedAppends(a: seq<Notification>, n: Notification)
    ensures Printed(a + [n]) == Printed(a) + [NotificationFrame(n)]
  {
    if a == [] {
      assert a + [n] == [n];
      assert Printed([n]) == [NotificationFrame(n)] + Printed([]);
    } else {
      PrintedAppends(a[1..], n);
      assert (a + [n])[1..] == a[1..] + [n];
    }
  }

  lemma PrintedOneMore(before: bytes, msgs: seq<Notification>, i: nat)
    requires i < |msgs|
    ensures before + Concat(Printed(msgs[..i + 1])) == before + Concat(Printed(msgs[..i])) + NotificationFrame(msgs[i])
  {
    assert msgs[..i + 1] == msgs[..i] + [msgs[i]];
    PrintedAppends(msgs[..i], msgs[i]);
    ConcatOneMore(Printed(msgs[..i]), NotificationFrame(msgs[i]));
  }

  /** What cannot be read on from: a frame cut short, or one of a size below its header's. */
  predicate Stuck(tail: bytes) {
    |tail| < HEADER_SIZE || !(HEADER_SIZE <= ParseHeader(tail).Size <= |tail|)
  }

  /** Whole frames, back to back, are found again, whatever follows them. */
  lemma {:induction false} FramesAreFound(frames: seq<bytes>, tail: bytes)
    requires AreFrames(frames)
    ensures SplitFrames(Concat(frames) + tail) == frames + SplitFrames(tail)
    ensures WellFramed(Concat(frames) + tail) == WellFramed(tail)
  {
    if frames == [] {
      assert Concat(frames) + tail == tail;
    } else {
      var f, others := frames[0], frames[1..];
      FramesAreFound(others, tail);
      FrameFirst(f, Concat(others) + tail);
      Regroup(f, Concat(others), tail);
      Regroup([f], others, SplitFrames(tail));
      assert frames == [f] + others;
    }
  }

  lemma Regroup<T>(a: seq<T>, b: seq<T>, c: seq<T>)
    ensures a + b + c == a + (b + c)
  {
  }

  /** Every stream is whole frames and a tail at which reading ends. */
  lemma {:induction false} StreamIsFrames(stream: bytes) returns (tail: bytes)
    ensures stream == Concat(SplitFrames(stream)) + tail && Stuck(tail)
    ensures WellFramed(stream) <==> |tail| < HEADER_SIZE || ParseHeader(tail).Size >= HEADER_SIZE
  {
    if Stuck(stream) {
      tail := stream;
    } else {
      var size := ParseHeader(stream).Size;
      var f, rest := stream[..size], stream[size..];
      tail := StreamIsFrames(rest);
      assert stream == f + rest && ParseHeader(f) == ParseHeader(stream);
      FrameFirst(f, rest);
      ConcatPush(f, SplitFrames(rest));
      Regroup(f, Concat(SplitFrames(rest)), tail);
    }
  }

  // ---- printing and reading back ----

  /** What the printers of the packet types write for a packet, with its size recalculated. `stale` is what the
      buffer held at the reserved field. */
  function MessageFrame(m: FromVert, stale: bytes): bytes
    requires !m.FromUnregister? && |stale| == 2
  {
    match m
    case FromAnnounce(a) => AnnounceBytes(Header(TruncatedSize(AnnounceSize(a)), GOSSIP_ANNOUNCE), a, stale[1])
    case FromRegister(n) => NotifyBytes(Header(NOTIFY_SIZE, GOSSIP_NOTIFY), n, stale)
    case FromValidation(v) => ValidationBytes(Header(VALIDATION_SIZE, GOSSIP_VALIDATION), v)
  }

  /** The packets that survive printing: the size fits into the header, the reserved field is what the buffer
      happened to hold, and the flag agrees with the bit it stands for. */
  predicate Faithful(m: FromVert, stale: bytes)
    requires !m.FromUnregister? && |stale| == 2
  {
    match m
    case FromAnnounce(a) => AnnounceSize(a) <= 0xFFFF && a.reserved == stale[1]
    case FromRegister(n) => n.reserved == ReadBE16(stale)
    case FromValidation(v) => v.valid == (v.bitfield % 2 == 1)
  }

  lemma PrintedFrameParses(m: FromVert, stale: bytes)
    requires !m.FromUnregister? && |stale| == 2
    requires m.FromAnnounce? ==> AnnounceSize(m.announce) <= 0xFFFF
    ensures var f := MessageFrame(m, stale);
      && IsFrame(f) && Packet(f).Some?
      && (Packet(f).value == m <==> Faithful(m, stale))
  {
    hide BE16, ReadBE16, HeaderBytes, AnnounceBytes, NotifyBytes, ValidationBytes;
    match m {
      case FromAnnounce(a) => AnnounceFrameParses(a, stale[1]);
      case FromRegister(n) => NotifyFrameParses(n, stale);
      case FromValidation(v) => ValidationFrameParses(v);
    }
  }

  lemma AnnounceFrameParses(a: Announce, stale: byte)
    requires AnnounceSize(a) <= 0xFFFF
    ensures var h := Header(AnnounceSize(a), GOSSIP_ANNOUNCE); var f := AnnounceBytes(h, a, stale);
      |f| == h.Size && ParseHeader(f) == h && ParseAnnounce(h, f) == a.(reserved := stale)
  {
    var h := Header(AnnounceSize(a), GOSSIP_ANNOUNCE);
    var f := AnnounceBytes(h, a, stale);
    HeaderRoundTrip(h, [a.ttl, stale] + BE16(a.dataType) + a.data);
    assert f == HeaderBytes(h) + ([a.ttl, stale] + BE16(a.dataType) + a.data);
    assert f[8..|f|] == a.data && f[6..][..2] == BE16(a.dataType);
  }

  lemma NotifyFrameParses(n: Notify, stale: bytes)
    requires |stale| == 2
    ensures var h := Header(NOTIFY_SIZE, GOSSIP_NOTIFY); var f := NotifyBytes(h, n, stale);
      |f| == h.Size && ParseHeader(f) == h && ParseNotify(f) == n.(reserved := ReadBE16(stale))
  {
    var f := NotifyBytes(Header(NOTIFY_SIZE, GOSSIP_NOTIFY), n, stale);
    assert f[4..][..2] == stale && f[6..][..2] == BE16(n.dataType);
  }

  lemma ValidationFrameParses(v: Validation)
    ensures var h := Header(VALIDATION_SIZE, GOSSIP_VALIDATION); var f := ValidationBytes(h, v);
      |f| == h.Size && ParseHeader(f) == h && ParseValidation(f) == v.(valid := v.bitfield % 2 == 1)
  {
    var f := ValidationBytes(Header(VALIDATION_SIZE, GOSSIP_VALIDATION), v);
    assert f[4..][..2] == BE16(v.messageId) && f[6..][..2] == BE16(v.bitfield);
  }

  lemma EmittedFits(frames: seq<bytes>, m: FromVert)
    requires AreFrames(frames) && m in Packets(frames) && m.FromAnnounce?
    ensures AnnounceSize(m.announce) <= 0xFFFF
  {
    if m !in AsSeq(Packet(frames[0])) {
      EmittedFits(frames[1..], m);
    }
  }

  /** A printed packet is read back as itself exactly when it is faithful. */
  lemma RoundTripIff(m: FromVert, stale: bytes)
    requires !m.FromUnregister? && |stale| == 2
    ensures Emitted(MessageFrame(m, stale)) == [m] <==> Faithful(m, stale)
  {
    var f := MessageFrame(m, stale);
    if m.FromAnnounce? && AnnounceSize(m.announce) > 0xFFFF {
      if Emitted(f) == [m] {
        EmittedFits(SplitFrames(f), m);
        assert false;
      }
    } else {
      PrintedFrameParses(m, stale);
      FramesAreFound([f], []);
      assert Concat([f]) == f + Concat([]) == f && f + [] == f && [f] + SplitFrames([]) == [f];
      assert Emitted(f) == Packets([f]) == AsSeq(Packet(f)) + Packets([f][1..]) == [Packet(f).value];
    }
  }

  /** A packet that was read is faithful, and prints as the frame it came from unless bytes after a fixed-size
      packet were dropped. */
  lemma ParsedFramePrints(f: bytes)
    requires IsFrame(f) && Packet(f).Some?
    ensures !Packet(f).value.FromUnregister? && Faithful(Packet(f).value, f[4..6])
    ensures MessageFrame(Packet(f).value, f[4..6]) == f <==> Packet(f).value.FromAnnounce? || |f| == 8
  {
    var h := ParseHeader(f);
    FourParts(f);
    var m := Packet(f).value;
    if m.FromAnnounce? {
      assert MessageFrame(m, f[4..6]) == HeaderBytes(h) + [f[4], f[5]] + BE16(ReadBE16(f[6..])) + f[8..];
    } else if |f| == 8 {
      assert f[8..] == [];
    }
  }

  lemma FourParts(f: bytes)
    requires |f| >= 8
    ensures f == f[..4] + f[4..6] + f[6..8] + f[8..] && f[4..6] == [f[4], f[5]]
    ensures HeaderBytes(ParseHeader(f)) == f[..4]
    ensures BE16(ReadBE16(f[6..])) == f[6..8] && BE16(ReadBE16(f[4..])) == f[4..6]
  {
  }

  // ---- streams of packets and of frames that are skipped ----

  datatype Piece = Message(m: FromVert, stale: bytes) | Other(frame: bytes) {
    predicate Valid() {
      match this
      case Message(m, stale) => !m.FromUnregister? && |stale| == 2 && Faithful(m, stale)
      case Other(frame) => IsFrame(frame) && Packet(frame).None?
    }

    function Frame(): bytes
      requires Valid()
    {
      if Message? then MessageFrame(m, stale) else frame
    }
  }

  predicate AllValid(pieces: seq<Piece>) {
    forall i :: 0 <= i < |pieces| ==> pieces[i].Valid()
  }

  function FramesOf(pieces: seq<Piece>): (frames: seq<bytes>)
    requires AllValid(pieces)
  {
    if pieces == [] then [] else [pieces[0].Frame()] + FramesOf(pieces[1..])
  }

  function MessagesOf(pieces: seq<Piece>): seq<FromVert> {
    if pieces == [] then [] else (if pieces[0].Message? then [pieces[0].m] else []) + MessagesOf(pieces[1..])
  }

  lemma {:induction false} FramesOfPieces(pieces: seq<Piece>)
    requires AllValid(pieces)
    ensures AreFrames(FramesOf(pieces)) && Packets(FramesOf(pieces)) == MessagesOf(pieces)
  {
    if pieces != [] {
      FramesOfPieces(pieces[1..]);
      if pieces[0].Message? {
        PrintedFrameParses(pieces[0].m, pieces[0].stale);
      }
      var frames := FramesOf(pieces);
      assert frames[0] == pieces[0].Frame() && frames[1..] == FramesOf(pieces[1..]);
    }
  }

  lemma {:induction false} PacketsAppend(a: seq<bytes>, b: seq<bytes>)
    requires AreFrames(a) && AreFrames(b)
    ensures AreFrames(a + b) && Packets(a + b) == Packets(a) + Packets(b)
  {
    if a == [] {
      assert a + b == b;
    } else {
      PacketsAppend(a[1..], b);
      assert (a + b)[1..] == a[1..] + b && (a + b)[0] == a[0];
      Regroup(AsSeq(Packet(a[0])), Packets(a[1..]), Packets(b));
    }
  }

  /** Faithful packets are read back in order; the frames skipped between them cost nothing; what follows is
      read as if it came first. */
  lemma StreamRoundTrip(pieces: seq<Piece>, tail: bytes)
    requires AllValid(pieces)
    ensures Emitted(Concat(FramesOf(pieces)) + tail) == MessagesOf(pieces) + Emitted(tail)
    ensures WellFramed(Concat(FramesOf(pieces)) + tail) == WellFramed(tail)
  {
    FramesOfPieces(pieces);
    FramesAreFound(FramesOf(pieces), tail);
    PacketsAppend(FramesOf(pieces), SplitFrames(tail));
  }

  // ---- notifications ----

  /** A printed notification is read back as itself exactly when its size fits the header. A size cut to less than
      eight is one on which the parser's slice bounds fail. */
  lemma NotificationFrameParses(n: Notification)
    ensures var f := NotificationFrame(n); var h := Header(TruncatedSize(NotificationSize(n)), GOSSIP_NOTIFICATION);
      && |f| == NotificationSize(n) && ParseHeader(f) == h
      && (h.Size >= 8 && ParseNotification(h, f) == n <==> |n.data| <= 0xFFFF - 8)
  {
    var f := NotificationFrame(n);
    var h := Header(TruncatedSize(NotificationSize(n)), GOSSIP_NOTIFICATION);
    HeaderRoundTrip(h, BE16(n.messageId) + BE16(n.dataType) + n.data);
    assert f[4..][..2] == BE16(n.messageId) && f[6..][..2] == BE16(n.dataType) && f[8..] == n.data;
    assert f[8..|f|] == f[8..];
  }

  predicate AllFit(msgs: seq<Notification>) {
    forall n <- msgs :: NotificationSize(n) <= 0xFFFF
  }

  lemma FittingFramesAreFrames(msgs: seq<Notification>)
    requires AllFit(msgs)
    ensures AreFrames(Printed(msgs))
  {
    if msgs != [] {
      NotificationFrameParses(msgs[0]);
      FittingFramesAreFrames(msgs[1..]);
    }
  }

  /** The stream written is cut again at the notifications' own boundaries exactly when each fits its header. */
  lemma WrittenStreamSplitsIff(msgs: seq<Notification>)
    ensures SplitFrames(Concat(Printed(msgs))) == Printed(msgs) <==> AllFit(msgs)
  {
    var frames := Printed(msgs);
    if AllFit(msgs) {
      FittingFramesAreFrames(msgs);
      FramesAreFound(frames, []);
      assert Concat(frames) + [] == Concat(frames) && frames + SplitFrames([]) == frames;
    } else if SplitFrames(Concat(frames)) == frames {
      var n :| n in msgs && NotificationSize(n) > 0xFFFF;
      PrintedHolds(msgs, n);
      NotificationFrameParses(n);
      assert false;
    }
  }

  lemma PrintedHolds(msgs: seq<Notification>, n: Notification)
    requires n in msgs
    ensures NotificationFrame(n) in Printed(msgs)
  {
    if msgs[0] != n {
      PrintedHolds(msgs[1..], n);
    }
  }

  // ---- the bytes on the wire ----

  /** What the bytes of a frame mean, position by position: its size is in the first two, its type in the next two,
      most significant byte first; 500 is an announce, 501 a registration, 503 a validation. */
  lemma FrameMeans(f: bytes)
    ensures IsFrame(f) <==> |f| >= 4 && |f| == 256 * (f[0] as int) + f[1]
    ensures IsFrame(f) ==> (Packet(f) ==
      if |f| < 8 then None
      else if 256 * (f[2] as int) + f[3] == 500 then
        Some(FromAnnounce(Announce(f[4], f[5], 256 * (f[6] as int) + f[7], f[8..])))
      else if 256 * (f[2] as int) + f[3] == 501 then
        Some(FromRegister(Notify(256 * (f[4] as int) + f[5], 256 * (f[6] as int) + f[7])))
      else if 256 * (f[2] as int) + f[3] == 503 then
        Some(FromValidation(Validation(256 * (f[4] as int) + f[5], 256 * (f[6] as int) + f[7], f[7] % 2 == 1)))
      else None)
  {
    if IsFrame(f) && |f| >= 8 {
      assert f[4..][0] == f[4] && f[6..][0] == f[6] && f[6..][1] == f[7];
      assert f[8..|f|] == f[8..];
    }
  }

  /** The bytes that are printed for each packet; 502 is a notification. */
  lemma PrintedBytes(n: Notification, a: Announce, r: Notify, v: Validation, stale: bytes)
    requires |stale| == 2
    ensures var size := 8 + |n.data|; NotificationFrame(n) == [size / 256 % 256, size % 256, 1, 246,
      n.messageId / 256, n.messageId % 256, n.dataType / 256, n.dataType % 256] + n.data
    ensures var size := 8 + |a.data|; MessageFrame(FromAnnounce(a), stale) == [size / 256 % 256, size % 256, 1, 244,
      a.ttl, stale[1], a.dataType / 256, a.dataType % 256] + a.data
    ensures MessageFrame(FromRegister(r), stale) ==
      [0, 8, 1, 245, stale[0], stale[1], r.dataType / 256, r.dataType % 256]
    ensures MessageFrame(FromValidation(v), stale) ==
      [0, 8, 1, 247, v.messageId / 256, v.messageId % 256, v.bitfield / 256, v.bitfield % 256]
  {
    SizeBytes(8 + |n.data|);
    SizeBytes(8 + |a.data|);
  }

  lemma SizeBytes(size: nat)
    ensures TruncatedSize(size) / 256 == size / 256 % 256 && TruncatedSize(size) % 256 == size % 256
  {
  }
}

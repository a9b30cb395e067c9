/** The packets of the vertical API: their byte layouts, printers and parsers over reused buffers. */
module VerticalTypes {
  import opened Basics
  import opened Bytes

  const GOSSIP_ANNOUNCE: uint16 := 500
  const GOSSIP_NOTIFY: uint16 := 501
  const GOSSIP_NOTIFICATION: uint16 := 502
  const GOSSIP_VALIDATION: uint16 := 503

  const HEADER_SIZE: nat := 4

  datatype Header = Header(Size: uint16, Type: uint16)

  datatype Announce = Announce(ttl: byte, reserved: byte, dataType: uint16, data: bytes)
  datatype Notify = Notify(reserved: uint16, dataType: uint16)
  datatype Validation = Validation(messageId: uint16, bitfield: uint16, valid: bool)
  datatype Notification = Notification(messageId: uint16, dataType: uint16, data: bytes)

  datatype Error = WrongType | NotEnoughData

  // ---- Go slices ----

  /** The first `len` bytes of a backing array, whose length is the slice's capacity. */
  datatype Slice = Slice(arr: array<byte>, len: nat) {
    predicate Valid() {
      len <= arr.Length
    }

    function Content(): bytes
      requires Valid()
      reads arr
    {
      arr[..len]
    }
  }

  function Zeros(n: nat): (z: bytes)
    ensures |z| == n && forall i :: 0 <= i < n ==> z[i] == 0
  {
    seq(n, _ => 0)
  }

  /** The first n bytes of s, with zeros after its end. */
  function Padded(s: bytes, n: nat): (r: bytes)
    ensures |r| == n
  {
    if n <= |s| then s[..n] else s + Zeros(n - |s|)
  }

  method NewSlice(len: nat, capacity: nat) returns (s: Slice)
    requires len <= capacity
    ensures s.Valid() && s.len == len && fresh(s.arr) && s.arr[..] == Zeros(capacity)
  {
    var arr := new byte[capacity](_ => 0);
    s := Slice(arr, len);
  }

  /** slices.Grow: room for n more bytes. What the old capacity held stays, the rest is zero. */
  method Grow(s: Slice, n: nat) returns (r: Slice)
    requires s.Valid()
    ensures r.Valid() && r.len == s.len && r.arr.Length >= s.len + n
    ensures r.arr == s.arr || fresh(r.arr)
    ensures r.arr[..] == Padded(s.arr[..], r.arr.Length)
  {
    if s.arr.Length - s.len >= n {
      r := s;
      assert s.arr[..s.arr.Length] == s.arr[..];
    } else {
      var arr := new byte[s.len + n](_ => 0);
      CopyInto(arr, 0, s.arr[..]);
      r := Slice(arr, s.len);
      assert arr[..] == Padded(s.arr[..], s.len + n);
    }
  }

  /** buf = slices.Grow(buf, n)[:n], with which every printer starts. */
  method Resize(s: Slice, n: nat) returns (r: Slice)
    requires s.Valid()
    ensures r.Valid() && r.len == n && (r.arr == s.arr || fresh(r.arr))
    ensures r.arr[..] == Padded(s.arr[..], r.arr.Length)
  {
    r := Grow(s, n);
    r := Slice(r.arr, n);
  }

  // ---- layouts ----

  function HeaderBytes(h: Header): (b: bytes)
    ensures |b| == HEADER_SIZE
  {
    BE16(h.Size) + BE16(h.Type)
  }

  function ParseHeader(b: bytes): Header
    requires |b| >= HEADER_SIZE
  {
    Header(ReadBE16(b), ReadBE16(b[2..]))
  }

  lemma HeaderRoundTrip(h: Header, rest: bytes)
    ensures ParseHeader(HeaderBytes(h) + rest) == h
  {
  }

  /** The reserved byte is not written: it is what the buffer held. */
  function AnnounceBytes(h: Header, a: Announce, stale: byte): bytes {
    HeaderBytes(h) + [a.ttl, stale] + BE16(a.dataType) + a.data
  }

  function NotifyBytes(h: Header, n: Notify, stale: bytes): bytes
    requires |stale| == 2
  {
    HeaderBytes(h) + stale + BE16(n.dataType)
  }

  function ValidationBytes(h: Header, v: Validation): bytes {
    HeaderBytes(h) + BE16(v.messageId) + BE16(v.bitfield)
  }

  function NotificationBytes(h: Header, n: Notification): bytes {
    HeaderBytes(h) + BE16(n.messageId) + BE16(n.dataType) + n.data
  }

  function AnnounceSize(a: Announce): nat {
    HEADER_SIZE + 1 + 1 + 2 + |a.data|
  }

  function NotificationSize(n: Notification): nat {
    HEADER_SIZE + 2 + 2 + |n.data|
  }

  const NOTIFY_SIZE: nat := HEADER_SIZE + 2 + 2
  const VALIDATION_SIZE: nat := HEADER_SIZE + 2 + 2

  /** RecalcSize: the size is cut to 16 bits. */
  function TruncatedSize(n: nat): uint16 {
    n % 0x1_0000
  }

  function ParseAnnounce(h: Header, buf: bytes): Announce
    requires |buf| >= 8 && h.Size >= 8
  {
    Announce(buf[4], buf[5], ReadBE16(buf[6..]), buf[8..Min(h.Size, |buf|)])
  }

  function ParseNotify(buf: bytes): Notify
    requires |buf| >= 8
  {
    Notify(ReadBE16(buf[4..]), ReadBE16(buf[6..]))
  }

  function ParseValidation(buf: bytes): Validation
    requires |buf| >= 8
  {
    var bitfield := ReadBE16(buf[6..]);
    Validation(ReadBE16(buf[4..]), bitfield, bitfield % 2 == 1)
  }

  function ParseNotification(h: Header, buf: bytes): Notification
    requires |buf| >= 8 && h.Size >= 8
  {
    Notification(ReadBE16(buf[4..]), ReadBE16(buf[6..]), buf[8..Min(h.Size, |buf|)])
  }

  // ---- printers and parsers on the packet objects ----

  /** Writes the header at the start of a buffer that is large enough. */
  method MarshalHeader(h: Header, buf: Slice)
    requires buf.Valid() && buf.len >= HEADER_SIZE
    modifies buf.arr
    ensures buf.arr[..] == HeaderBytes(h) + old(buf.arr[HEADER_SIZE..])
  {
    CopyInto(buf.arr, 0, BE16(h.Size));
    CopyInto(buf.arr, 2, BE16(h.Type));
  }

  class GossipAnnounce {
    var Ga: Announce
    var MessageHeader: Header

    constructor (h: Header)
      ensures MessageHeader == h && Ga == Announce(0, 0, 0, [])
    {
      MessageHeader, Ga := h, Announce(0, 0, 0, []);
    }

    function CalcSize(): (s: nat)
      reads this
      ensures s == AnnounceSize(Ga)
    {
      HEADER_SIZE + 1 + 1 + 2 + |Ga.data|
    }

    method Unmarshal(buf: bytes) returns (n: nat, err: Option<Error>)
      requires |buf| >= CalcSize() ==> MessageHeader.Size >= 8  // else the source's slice bounds fail
      modifies this`Ga
      ensures err == if MessageHeader.Type != GOSSIP_ANNOUNCE then Some(WrongType)
                     else if |buf| < old(CalcSize()) then Some(NotEnoughData) else None
      ensures
        if err.None? then Ga == ParseAnnounce(MessageHeader, buf) && n == AnnounceSize(Ga)
        else Ga == old(Ga) && n == 0
    {
      if MessageHeader.Type != GOSSIP_ANNOUNCE {
        return 0, Some(WrongType);
      }
      if |buf| < CalcSize() {
        return 0, Some(NotEnoughData);
      }
      var idx := HEADER_SIZE;
      Ga := Ga.(ttl := buf[idx]);
      idx := idx + 1;
      Ga := Ga.(reserved := buf[idx]);
      idx := idx + 1;
      Ga := Ga.(dataType := ReadBE16(buf[idx..]));
      idx := idx + 2;
      Ga := Ga.(data := buf[idx..Min(MessageHeader.Size, |buf|)]);
      idx := idx + |Ga.data|;
      return idx, None;
    }

    method Marshal(buf: Slice) returns (r: Slice, err: Option<Error>)
      requires buf.Valid()
      modifies buf.arr
      ensures r.Valid() && (r.arr == buf.arr || fresh(r.arr))
      ensures err == if MessageHeader.Type != GOSSIP_ANNOUNCE then Some(WrongType) else None
      ensures err.None? ==> r.Content() == AnnounceBytes(MessageHeader, Ga, Padded(old(buf.arr[..]), 6)[5])
    {
      if MessageHeader.Type != GOSSIP_ANNOUNCE {
        return buf, Some(WrongType);
      }
      r := Resize(buf, CalcSize());
      ghost var before := r.arr[..];
      MarshalHeader(MessageHeader, r);
      var idx := HEADER_SIZE;
      r.arr[idx] := Ga.ttl;
      idx := idx + 1;
      idx := idx + 1;  // the reserved field is skipped
      assert r.arr[..idx] == HeaderBytes(MessageHeader) + [Ga.ttl, before[5]];
      CopyInto(r.arr, idx, BE16(Ga.dataType));
      idx := idx + 2;
      CopyInto(r.arr, idx, Ga.data);
      err := None;
    }
  }

  class GossipNotify {
    var Gn: Notify
    var MessageHeader: Header

    constructor (h: Header)
      ensures MessageHeader == h && Gn == Notify(0, 0)
    {
      MessageHeader, Gn := h, Notify(0, 0);
    }

    method Unmarshal(buf: bytes) returns (n: nat, err: Option<Error>)
      modifies this`Gn
      ensures err == if MessageHeader.Type != GOSSIP_NOTIFY then Some(WrongType)
                     else if |buf| < NOTIFY_SIZE then Some(NotEnoughData) else None
      ensures if err.None? then Gn == ParseNotify(buf) && n == NOTIFY_SIZE else Gn == old(Gn) && n == 0
    {
      if MessageHeader.Type != GOSSIP_NOTIFY {
        return 0, Some(WrongType);
      }
      if |buf| < NOTIFY_SIZE {
        return 0, Some(NotEnoughData);
      }
      var idx := HEADER_SIZE;
      Gn := Gn.(reserved := ReadBE16(buf[idx..]));
      idx := idx + 2;
      Gn := Gn.(dataType := ReadBE16(buf[idx..]));
      idx := idx + 2;
      return idx, None;
    }

    method Marshal(buf: Slice) returns (r: Slice, err: Option<Error>)
      requires buf.Valid()
      modifies buf.arr
      ensures r.Valid() && (r.arr == buf.arr || fresh(r.arr))
      ensures err == if MessageHeader.Type != GOSSIP_NOTIFY then Some(WrongType) else None
      ensures err.None? ==> r.Content() == NotifyBytes(MessageHeader, Gn, Padded(old(buf.arr[..]), 6)[4..])
    {
      if MessageHeader.Type != GOSSIP_NOTIFY {
        return buf, Some(WrongType);
      }
      r := Resize(buf, NOTIFY_SIZE);
      ghost var before := r.arr[..];
      MarshalHeader(MessageHeader, r);
      var idx := HEADER_SIZE;
      idx := idx + 2;  // the reserved field is skipped
      assert r.arr[..idx] == HeaderBytes(MessageHeader) + before[4..6];
      CopyInto(r.arr, idx, BE16(Gn.dataType));
      err := None;
    }
  }

  class GossipValidation {
    var Gv: Validation
    var MessageHeader: Header

    constructor (h: Header)
      ensures MessageHeader == h && Gv == Validation(0, 0, false)
    {
      MessageHeader, Gv := h, Validation(0, 0, false);
    }

    method Unmarshal(buf: bytes) returns (n: nat, err: Option<Error>)
      modifies this`Gv
      ensures err == if MessageHeader.Type != GOSSIP_VALIDATION then Some(WrongType)
                     else if |buf| < VALIDATION_SIZE then Some(NotEnoughData) else None
      ensures if err.None? then Gv == ParseValidation(buf) && n == VALIDATION_SIZE else Gv == old(Gv) && n == 0
    {
      if MessageHeader.Type != GOSSIP_VALIDATION {
        return 0, Some(WrongType);
      }
      var idx := HEADER_SIZE;
      if |buf| < VALIDATION_SIZE {
        return 0, Some(NotEnoughData);
      }
      Gv := Gv.(messageId := ReadBE16(buf[idx..]));
      idx := idx + 2;
      Gv := Gv.(bitfield := ReadBE16(buf[idx..]));
      idx := idx + 2;
      Gv := Gv.(valid := Gv.bitfield % 2 == 1);
      return idx, None;
    }

    method Marshal(buf: Slice) returns (r: Slice, err: Option<Error>)
      requires buf.Valid()
      modifies buf.arr
      ensures r.Valid() && (r.arr == buf.arr || fresh(r.arr))
      ensures err == if MessageHeader.Type != GOSSIP_VALIDATION then Some(WrongType) else None
      ensures err.None? ==> r.Content() == ValidationBytes(MessageHeader, Gv)
    {
      if MessageHeader.Type != GOSSIP_VALIDATION {
        return buf, Some(WrongType);
      }
      r := Resize(buf, VALIDATION_SIZE);
      MarshalHeader(MessageHeader, r);
      var idx := HEADER_SIZE;
      CopyInto(r.arr, idx, BE16(Gv.messageId));
      idx := idx + 2;
      CopyInto(r.arr, idx, BE16(Gv.bitfield));
      err := None;
    }
  }

  class GossipNotification {
    var Gn: Notification
    var MessageHeader: Header

    constructor (h: Header, gn: Notification)
      ensures MessageHeader == h && Gn == gn
    {
      MessageHeader, Gn := h, gn;
    }

    function CalcSize(): (s: nat)
      reads this
      ensures s == NotificationSize(Gn)
    {
      HEADER_SIZE + 2 + 2 + |Gn.data|
    }

    method RecalcSize()
      modifies this`MessageHeader
      ensures MessageHeader == old(MessageHeader).(Size := TruncatedSize(NotificationSize(Gn)))
    {
      MessageHeader := MessageHeader.(Size := CalcSize() % 0x1_0000);
    }

    method Unmarshal(buf: bytes) returns (n: nat, err: Option<Error>)
      requires |buf| >= CalcSize() ==> MessageHeader.Size >= 8  // else the source's slice bounds fail
      modifies this`Gn
      ensures err == if MessageHeader.Type != GOSSIP_NOTIFICATION then Some(WrongType)
                     else if |buf| < old(CalcSize()) then Some(NotEnoughData) else None
      ensures
        if err.None? then Gn == ParseNotification(MessageHeader, buf) && n == NotificationSize(Gn)
        else Gn == old(Gn) && n == 0
    {
      if MessageHeader.Type != GOSSIP_NOTIFICATION {
        return 0, Some(WrongType);
      }
      if |buf| < CalcSize() {
        return 0, Some(NotEnoughData);
      }
      var idx := HEADER_SIZE;
      Gn := Gn.(messageId := ReadBE16(buf[idx..]));
      idx := idx + 2;
      Gn := Gn.(dataType := ReadBE16(buf[idx..]));
      idx := idx + 2;
      Gn := Gn.(data := buf[idx..Min(MessageHeader.Size, |buf|)]);
      idx := idx + |Gn.data|;
      return idx, None;
    }

    /** Every byte of the buffer is written: nothing of an earlier message is left. */
    method Marshal(buf: Slice) returns (r: Slice, err: Option<Error>)
      requires buf.Valid()
      modifies buf.arr
      ensures r.Valid() && (r.arr == buf.arr || fresh(r.arr))
      ensures err == if MessageHeader.Type != GOSSIP_NOTIFICATION then Some(WrongType) else None
      ensures err.None? ==> r.Content() == NotificationBytes(MessageHeader, Gn)
    {
      if MessageHeader.Type != GOSSIP_NOTIFICATION {
        return buf, Some(WrongType);
      }
      r := Resize(buf, CalcSize());
      MarshalHeader(MessageHeader, r);
      var idx := HEADER_SIZE;
      CopyInto(r.arr, idx, BE16(Gn.messageId));
      idx := idx + 2;
      CopyInto(r.arr, idx, BE16(Gn.dataType));
      idx := idx + 2;
      CopyInto(r.arr, idx, Gn.data);
      err := None;
    }
  }
}

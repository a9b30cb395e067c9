/** The cookies that a handshake carries: their byte layout and their authenticated encryption. */
module Cookies {
  import opened Basics
  import opened Bytes

  const NONCE_SIZE: nat := 24  // chacha20poly1305.NonceSizeX

  /** `timestamp` counts nanoseconds since the Unix epoch, as UnixNano does. */
  datatype Cookie = Cookie(chall: bytes, timestamp: int64, dest: bytes)

  function CookieBytes(c: Cookie): bytes {
    BE64(ToUint64(c.timestamp)) + c.chall + c.dest
  }

  function ParseCookie(buf: bytes): Cookie
    requires |buf| >= 8 + NONCE_SIZE
  {
    Cookie(buf[8..8 + NONCE_SIZE], ToInt64(ReadBE64(buf[..8])), buf[8 + NONCE_SIZE..])
  }

  lemma ParsesBack(c: Cookie)
    requires |c.chall| == NONCE_SIZE
    ensures |CookieBytes(c)| >= 8 + NONCE_SIZE && ParseCookie(CookieBytes(c)) == c
  {
    var buf := CookieBytes(c);
    assert buf[..8] == BE64(ToUint64(c.timestamp));
    assert buf[8..8 + NONCE_SIZE] == c.chall;
  }

  lemma PrintsBack(buf: bytes)
    requires |buf| >= 8 + NONCE_SIZE
    ensures CookieBytes(ParseCookie(buf)) == buf
  {
    EncodeDecoded(buf[..8]);
  }

  /** The cookie object, whose fields Unmarshal replaces. */
  class ConnCookie {
    var chall: bytes
    var timestamp: int64
    var dest: bytes

    constructor (chall: bytes, timestamp: int64, dest: bytes)
      ensures Value() == Cookie(chall, timestamp, dest)
    {
      this.chall, this.timestamp, this.dest := chall, timestamp, dest;
    }

    function Value(): Cookie
      reads this
    {
      Cookie(chall, timestamp, dest)
    }

    method Marshal() returns (buf: array<byte>)
      ensures fresh(buf) && buf[..] == CookieBytes(Value())
    {
      var t := BE64(ToUint64(timestamp));
      buf := new byte[|chall| + |t| + |dest|](_ => 0);
      var idx := 0;
      CopyInto(buf, idx, t);
      idx := idx + |t|;
      CopyInto(buf, idx, chall);
      assert buf[..idx] == t;
      idx := idx + |chall|;
      CopyInto(buf, idx, dest);
      assert buf[..] == t + chall + dest;
    }

    method Unmarshal(buf: bytes)
      requires |buf| >= 8 + NONCE_SIZE  // shorter buffers fail the source's slice bounds
      modifies this
      ensures Value() == ParseCookie(buf)
    {
      var idx := 0;
      var t := ReadBE64(buf[idx..idx + 8]);
      idx := idx + 8;
      chall := buf[idx..idx + NONCE_SIZE];
      idx := idx + NONCE_SIZE;
      timestamp := ToInt64(t);
      dest := buf[idx..];
    }
  }

  /** An authenticated cipher under one key; Open answers None where decryption fails. */
  datatype Aead = Aead(Seal: (bytes, bytes) -> bytes, Open: (bytes, bytes) -> Option<bytes>) {
    ghost predicate Correct() {
      forall nonce, text {:trigger Seal(nonce, text)} :: Open(nonce, Seal(nonce, text)) == Some(text)
    }
  }

  /** A created cookie starts with the cipher nonce, its challenge. */
  function CreateCookie(aead: Aead, c: Cookie): bytes {
    c.chall + aead.Seal(c.chall, CookieBytes(c))
  }

  /** What the cookie decrypts to. */
  function Opened(aead: Aead, cookie: bytes): Option<bytes>
    requires |cookie| >= NONCE_SIZE
  {
    aead.Open(cookie[..NONCE_SIZE], cookie[NONCE_SIZE..])
  }

  /** The bytes ReadCookie can take apart: all others fail its slice bounds. */
  predicate Readable(aead: Aead, cookie: bytes) {
    |cookie| >= NONCE_SIZE && (Opened(aead, cookie).Some? ==> |Opened(aead, cookie).value| >= 8 + NONCE_SIZE)
  }

  function ReadCookie(aead: Aead, cookie: bytes): Option<Cookie>
    requires Readable(aead, cookie)
  {
    match Opened(aead, cookie)
    case None => None
    case Some(text) => Some(ParseCookie(text))
  }

  /** CreateCookie on the object: marshal, encrypt, and put the challenge in front. */
  method Create(aead: Aead, x: ConnCookie) returns (cookie: bytes)
    ensures cookie == CreateCookie(aead, x.Value())
  {
    var payload := x.Marshal();
    var ciphertext := aead.Seal(x.chall, payload[..]);
    cookie := x.chall + ciphertext;
  }

  /** ReadCookie on bytes; null stands for the decryption error. */
  method Read(aead: Aead, cookie: bytes) returns (x: ConnCookie?)
    requires Readable(aead, cookie)
    ensures x == null <==> ReadCookie(aead, cookie).None?
    ensures x != null ==> fresh(x) && ReadCookie(aead, cookie) == Some(x.Value())
  {
    var cipherNonce, rest := cookie[..NONCE_SIZE], cookie[NONCE_SIZE..];
    var plaintext := aead.Open(cipherNonce, rest);
    if plaintext.None? {
      return null;
    }
    x := new ConnCookie([], 0, []);
    x.Unmarshal(plaintext.value);
  }

  /** Reading a created cookie gives back its challenge, timestamp and destination. */
  lemma ReadsBackCreated(aead: Aead, c: Cookie)
    requires aead.Correct() && |c.chall| == NONCE_SIZE
    ensures Readable(aead, CreateCookie(aead, c))
    ensures ReadCookie(aead, CreateCookie(aead, c)) == Some(c)
  {
    var sealed := aead.Seal(c.chall, CookieBytes(c));
    assert CreateCookie(aead, c)[..NONCE_SIZE] == c.chall;
    assert CreateCookie(aead, c)[NONCE_SIZE..] == sealed;
    ParsesBack(c);
  }

  /** A cookie is its challenge, which is also the cipher's nonce, and the encryption of three fields: the
      timestamp as a big-endian two's complement number of eight bytes, the challenge, and the destination. */
  lemma CookieLayout(aead: Aead, c: Cookie) returns (text: bytes)
    requires |c.chall| == NONCE_SIZE
    ensures CreateCookie(aead, c) == c.chall + aead.Seal(c.chall, text)
    ensures |text| == 32 + |c.dest| && text[8..32] == c.chall && text[32..] == c.dest
    ensures (c.timestamp
      - ((text[0] as int) * 0x100_0000_0000_0000 + (text[1] as int) * 0x1_0000_0000_0000
        + (text[2] as int) * 0x100_0000_0000 + (text[3] as int) * 0x1_0000_0000
        + (text[4] as int) * 0x100_0000 + (text[5] as int) * 0x1_0000 + (text[6] as int) * 0x100 + text[7]))
      % 0x1_0000_0000_0000_0000 == 0
  {
    text := CookieBytes(c);
    var t := BE64(ToUint64(c.timestamp));
    assert text == t + (c.chall + c.dest);
    ReadsBigEndian(t);
    assert forall i :: 0 <= i < 8 ==> text[i] == t[i];
    assert text[8..32] == c.chall;
  }
}

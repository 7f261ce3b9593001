/** The request envelope: the agent encrypts, signs and compresses a payload, and the server's middlewares undo
    the layers (internal/monclient/monclient.go, internal/ciphers/ciphers.go,
    internal/monserv/middlewares/middlewares.go, internal/monserv/monserv.go). */
module Envelope {
  import opened Wrappers

  type Byte = b: int | 0 <= b < 256
  type Bytes = seq<Byte>
  type PublicKey = nat
  type PrivateKey = nat

  const KEY_SIZE: nat := 32
  const NONCE_SIZE: nat := 12
  const ENC_KEY_SIZE: nat := 256

  /** What reading a body yields: its bytes, and whether the read then ends in an error. */
  datatype Stream = Stream(bytes: Bytes, broken: bool)

  function Intact(b: Bytes): Stream {
    Stream(b, false)
  }

  /** The codecs and ciphers of the Go library, of which only the laws below are known.  `rsaEncrypt` takes the
      randomness that OAEP consumes; `gunzip` refuses a bad header at once and meets anything else that is wrong, a
      damaged trailer for instance, while it is read. */
  datatype Crypto = Crypto(
    rsaEncrypt: (PublicKey, nat, Bytes) -> Bytes,
    rsaDecrypt: (PrivateKey, Bytes) -> Option<Bytes>,
    seal: (Bytes, Bytes, Bytes) -> Bytes,
    unseal: (Bytes, Bytes, Bytes) -> Option<Bytes>,
    mac: (Bytes, Bytes) -> Bytes,
    gzip: Bytes -> Bytes,
    gunzip: Stream -> Option<Stream>,
    encode: Bytes -> string,
    decode: string -> Option<Bytes>)
  {
    ghost predicate Lawful() {
      && (forall k: Bytes, n: Bytes, m: Bytes | |k| == KEY_SIZE && |n| == NONCE_SIZE :: unseal(k, n, seal(k, n, m)) == Some(m))
      && (forall k: Bytes, m: Bytes :: |mac(k, m)| == 32)
      && (forall m: Bytes :: gunzip(Intact(gzip(m))) == Some(Intact(m)))
      && (forall b: Bytes :: decode(encode(b)) == Some(b) && (b != [] ==> encode(b) != ""))
    }

    /** A matching RSA pair with a modulus of 2048 bits: ciphertexts fill exactly one key block. */
    ghost predicate Pair(pub: PublicKey, priv: PrivateKey) {
      forall r: nat, k: Bytes | |k| == KEY_SIZE ::
        |rsaEncrypt(pub, r, k)| == ENC_KEY_SIZE && rsaDecrypt(priv, rsaEncrypt(pub, r, k)) == Some(k)
    }
  }

  function Chars(b: Bytes): string {
    seq(|b|, i requires 0 <= i < |b| => b[i] as char)
  }

  function Codes(s: string): Bytes {
    seq(|s|, i requires 0 <= i < |s| => s[i] as int % 256)
  }

  function Padded(b: Bytes): Bytes {
    b + seq(if |b| <= ENC_KEY_SIZE then ENC_KEY_SIZE - |b| else 0, i => 0)
  }

  /** A toy format: the text and a trailer byte, which is 0. */
  function ToyGunzip(z: Stream): Option<Stream> {
    if z.bytes == [] then None
    else Some(Stream(z.bytes[..|z.bytes| - 1], z.broken || z.bytes[|z.bytes| - 1] != 0))
  }

  /** The laws do not contradict each other: toy codecs without any secrecy meet them.  They leave room for streams
      that give all their bytes before they turn out to be damaged. */
  lemma LawsAreMet() returns (c: Crypto)
    ensures c.Lawful() && c.Pair(0, 0)
    ensures forall m: Bytes :: c.gunzip(Intact(m + [1])) == Some(Stream(m, true))
  {
    c := Crypto(
      (pub, r, k) => Padded(k),
      (priv, b) => if |b| < KEY_SIZE then None else Some(b[..KEY_SIZE]),
      (k, n, m) => m,
      (k, n, m) => Some(m),
      (k, m) => seq(32, i => 0),
      m => m + [0],
      z => ToyGunzip(z),
      b => Chars(b),
      s => Some(Codes(s)));
    forall b: Bytes
      ensures Codes(Chars(b)) == b
    {
    }
    forall m: Bytes
      ensures c.gunzip(Intact(c.gzip(m))) == Some(Intact(m))
      ensures c.gunzip(Intact(m + [1])) == Some(Stream(m, true))
    {
      assert (m + [0])[..|m|] == m && (m + [1])[..|m|] == m;
    }
  }

  // ----- encryption

  /** What one encryption draws from the random source. */
  datatype Entropy = Entropy(key: Bytes, nonce: Bytes, oaep: nat) {
    predicate Valid() {
      |key| == KEY_SIZE && |nonce| == NONCE_SIZE
    }
  }

  function Encrypted(c: Crypto, pub: PublicKey, message: Bytes, e: Entropy): Bytes {
    c.rsaEncrypt(pub, e.oaep, e.key) + (e.nonce + c.seal(e.key, e.nonce, message))
  }

  method Fill(buffer: array<Byte>, source: Bytes)
    requires buffer.Length == |source|
    modifies buffer
    ensures buffer[..] == source
  {
    for i := 0 to buffer.Length
      invariant buffer[..i] == source[..i]
    {
      buffer[i] := source[i];
    }
    assert buffer[..] == buffer[..buffer.Length] && source[..|source|] == source;
  }

  method EncryptMsg(c: Crypto, pub: PublicKey, message: Bytes, e: Entropy) returns (r: Bytes)
    requires e.Valid()
    ensures r == Encrypted(c, pub, message, e)
  {
    var aesKey := new Byte[KEY_SIZE];
    Fill(aesKey, e.key);
    var nonce := new Byte[NONCE_SIZE];
    Fill(nonce, e.nonce);
    var encryptedMsg := nonce[..] + c.seal(aesKey[..], nonce[..], message);
    var encryptedKey := c.rsaEncrypt(pub, e.oaep, aesKey[..]);
    r := encryptedKey + encryptedMsg;
  }

  /** `OutOfRange` is the slice of the key block in a message that is shorter than one. */
  datatype Decryption = Plain(message: Bytes) | Refused | OutOfRange

  function DecryptMsg(c: Crypto, priv: PrivateKey, encMsg: Bytes): Decryption {
    if |encMsg| < ENC_KEY_SIZE then OutOfRange
    else
      var (encKey, rest) := (encMsg[..ENC_KEY_SIZE], encMsg[ENC_KEY_SIZE..]);
      match c.rsaDecrypt(priv, encKey)
      case None => Refused
      case Some(aesKey) =>
        if |aesKey| !in {16, 24, 32} || |rest| < NONCE_SIZE then Refused
        else
          match c.unseal(aesKey, rest[..NONCE_SIZE], rest[NONCE_SIZE..])
          case None => Refused
          case Some(message) => Plain(message)
  }

  /** The message consists of a block, a nonce and a sealed text, and the block gives the AES key that opens the text. */
  ghost predicate Opens(c: Crypto, priv: PrivateKey, block: Bytes, nonce: Bytes, sealed: Bytes, message: Bytes) {
    && |block| == 256 && |nonce| == 12 && c.rsaDecrypt(priv, block).Some?
    && var key := c.rsaDecrypt(priv, block).value;
       |key| in {16, 24, 32} && c.unseal(key, nonce, sealed) == Some(message)
  }

  /** What is decrypted, for any message at all, also a forged one; the rest is refused if it holds a block, and
      otherwise the slice of the block panics. */
  lemma DecryptedIff(c: Crypto, priv: PrivateKey, encMsg: Bytes, message: Bytes)
    ensures DecryptMsg(c, priv, encMsg) == Plain(message) <==>
            exists block: Bytes, nonce: Bytes, sealed: Bytes ::
              encMsg == block + (nonce + sealed) && Opens(c, priv, block, nonce, sealed, message)
    ensures DecryptMsg(c, priv, encMsg) == OutOfRange <==> |encMsg| < 256
  {
    if DecryptMsg(c, priv, encMsg) == Plain(message) {
      var block, rest := encMsg[..ENC_KEY_SIZE], encMsg[ENC_KEY_SIZE..];
      assert encMsg == block + (rest[..NONCE_SIZE] + rest[NONCE_SIZE..]);
      assert Opens(c, priv, block, rest[..NONCE_SIZE], rest[NONCE_SIZE..], message);
    }
    if block: Bytes, nonce: Bytes, sealed: Bytes :|
        encMsg == block + (nonce + sealed) && Opens(c, priv, block, nonce, sealed, message) {
      assert encMsg[..ENC_KEY_SIZE] == block && encMsg[ENC_KEY_SIZE..] == nonce + sealed;
      assert (nonce + sealed)[..NONCE_SIZE] == nonce && (nonce + sealed)[NONCE_SIZE..] == sealed;
    }
  }

  lemma DecryptOfEncrypt(c: Crypto, pub: PublicKey, priv: PrivateKey, message: Bytes, e: Entropy)
    requires c.Lawful() && c.Pair(pub, priv) && e.Valid()
    ensures DecryptMsg(c, priv, Encrypted(c, pub, message, e)) == Plain(message)
  {
    var block := c.rsaEncrypt(pub, e.oaep, e.key);
    var sealed := c.seal(e.key, e.nonce, message);
    var whole := Encrypted(c, pub, message, e);
    assert |block| == ENC_KEY_SIZE;
    assert whole[..ENC_KEY_SIZE] == block && whole[ENC_KEY_SIZE..] == e.nonce + sealed;
    assert (e.nonce + sealed)[..NONCE_SIZE] == e.nonce && (e.nonce + sealed)[NONCE_SIZE..] == sealed;
  }

  // ----- signing

  /** An HMAC state: its key and what was written since the last reset. */
  class Hash {
    const key: Bytes
    var written: Bytes

    constructor (key: Bytes)
      ensures this.key == key && written == []
    {
      this.key := key;
      written := [];
    }

    method Write(p: Bytes)
      modifies this
      ensures written == old(written) + p
    {
      written := written + p;
    }

    method Sum(c: Crypto) returns (r: Bytes)
      ensures r == c.mac(key, written)
    {
      r := c.mac(key, written);
    }

    method Reset()
      modifies this
      ensures written == []
    {
      written := [];
    }
  }

  // ----- the agent

  /** The parts of a request that the middlewares look at; a missing header is the empty string. */
  datatype Request = Request(contentEncoding: string, hashHeader: string, body: Stream)

  datatype Client = Client(signKey: Bytes, pub: Option<PublicKey>)

  function Payload(c: Crypto, client: Client, p: Bytes, e: Entropy): Bytes {
    match client.pub case None => p case Some(pub) => Encrypted(c, pub, p, e)
  }

  /** The request for one payload, with a signature of that payload only. */
  function RequestFor(c: Crypto, client: Client, p: Bytes, e: Entropy): Request {
    var payload := Payload(c, client, p, e);
    Request("gzip", if client.signKey == [] then "" else c.encode(c.mac(client.signKey, payload)), Intact(c.gzip(payload)))
  }

  class MonClient {
    const config: Client
    const h: Hash?

    ghost predicate Valid()
      reads this, h
    {
      if config.signKey == [] then h == null else h != null && h.key == config.signKey && h.written == []
    }

    constructor (config: Client)
      ensures Valid() && this.config == config && (h != null ==> fresh(h))
    {
      this.config := config;
      if config.signKey == [] {
        h := null;
      } else {
        h := new Hash(config.signKey);
      }
    }

    /** Resetting the hash after each signature keeps every signature to its own payload. */
    method Post(c: Crypto, p: Bytes, e: Entropy) returns (req: Request)
      requires Valid() && e.Valid()
      modifies h
      ensures Valid() && req == RequestFor(c, config, p, e)
    {
      var payload := p;
      if config.pub.Some? {
        payload := EncryptMsg(c, config.pub.value, p, e);
      }
      assert payload == Payload(c, config, p, e) && [] + payload == payload;
      var body := c.gzip(payload);
      var header := "";
      if h != null {
        h.Write(payload);
        var sum := h.Sum(c);
        header := c.encode(sum);
        h.Reset();
      }
      return Request("gzip", header, Intact(body));
    }

    /** The posts of one worker. */
    method PostAll(c: Crypto, ps: seq<Bytes>, es: seq<Entropy>) returns (reqs: seq<Request>)
      requires Valid() && |es| == |ps| && forall e | e in es :: e.Valid()
      modifies h
      ensures Valid() && |reqs| == |ps|
      ensures forall i | 0 <= i < |ps| :: reqs[i] == RequestFor(c, config, ps[i], es[i])
    {
      reqs := [];
      for i := 0 to |ps|
        invariant Valid() && |reqs| == i
        invariant forall j | 0 <= j < i :: reqs[j] == RequestFor(c, config, ps[j], es[j])
      {
        assert es[i] in es;
        var req := Post(c, ps[i], es[i]);
        reqs := reqs + [req];
      }
    }
  }

  // ----- the server

  datatype Server = Server(signKey: Bytes, priv: Option<PrivateKey>)

  datatype Middleware = Logger | Uncompress | SumChecker(key: Bytes) | Signer(key: Bytes) | Decrypter(priv: PrivateKey) | Compress

  function Checkers(server: Server): seq<Middleware> {
    if server.signKey == [] then [] else [SumChecker(server.signKey), Signer(server.signKey)]
  }

  function Decrypters(server: Server): seq<Middleware> {
    if server.priv.None? then [] else [Decrypter(server.priv.value)]
  }

  /** The middlewares in front of the update routes, outermost first. */
  function UpdateChain(server: Server): seq<Middleware> {
    [Logger, Uncompress] + Checkers(server) + Decrypters(server) + [Compress]
  }

  /** Where a middleware belongs. */
  function Rank(m: Middleware): nat {
    match m
    case Logger => 0
    case Uncompress => 1
    case SumChecker(_) => 2
    case Signer(_) => 3
    case Decrypter(_) => 4
    case Compress => 5
  }

  predicate Configured(server: Server, m: Middleware) {
    match m
    case SumChecker(key) => server.signKey != [] && key == server.signKey
    case Signer(key) => server.signKey != [] && key == server.signKey
    case Decrypter(priv) => server.priv == Some(priv)
    case _ => true
  }

  ghost predicate Ordered(chain: seq<Middleware>) {
    forall i, j | 0 <= i < j < |chain| :: Rank(chain[i]) < Rank(chain[j])
  }

  /** Decompression comes before the check of the signature, this before decryption, and this before the compression of
      the response; each is there exactly when it is configured, and once. */
  method MountUpdates(server: Server) returns (umw: seq<Middleware>)
    ensures Ordered(umw) && forall m :: m in umw <==> Configured(server, m)
  {
    umw := [Logger, Uncompress];
    if server.signKey != [] {
      umw := umw + [SumChecker(server.signKey)];
      umw := umw + [Signer(server.signKey)];
    }
    if server.priv.Some? {
      umw := umw + [Decrypter(server.priv.value)];
    }
    umw := umw + [Compress];
  }

  lemma HasMember(chain: seq<Middleware>)
    requires chain != []
    ensures exists m :: m in chain
  {
    assert chain[0] in chain;
  }

  lemma {:induction false} OrderedUnique(a: seq<Middleware>, b: seq<Middleware>)
    requires Ordered(a) && Ordered(b) && forall m :: m in a <==> m in b
    ensures a == b
  {
    if a == [] {
      if b != [] {
        HasMember(b);
        assert false;
      }
    } else if b == [] {
      HasMember(a);
      assert false;
    } else {
      assert a[0] in b && b[0] in a;
      var i :| 0 <= i < |b| && b[i] == a[0];
      var j :| 0 <= j < |a| && a[j] == b[0];
      assert a[0] == b[0];
      forall m
        ensures m in a[1..] <==> m in b[1..]
      {
        assert m in a <==> m == a[0] || m in a[1..];
        assert m in b <==> m == b[0] || m in b[1..];
        assert a[0] !in a[1..] && b[0] !in b[1..];
      }
      OrderedUnique(a[1..], b[1..]);
    }
  }

  /** These promises leave one chain. */
  lemma MountedChain(server: Server, umw: seq<Middleware>)
    requires Ordered(umw) && forall m :: m in umw <==> Configured(server, m)
    ensures umw == UpdateChain(server)
  {
    OrderedUnique(umw, UpdateChain(server));
  }

  /** How a request fares: the handler is called with a body - after an error was already answered if
      `errored` - or a middleware answers alone, or one panics. */
  datatype Fate = Handled(body: Stream, errored: bool) | Answered(code: int) | Panicked

  datatype Checked = Pass(body: Stream) | Reject(code: int)

  /** The signature is checked over the bytes that could be read; that the read failed is not asked for, and the body
      is replaced by those bytes. */
  function CheckSum(c: Crypto, key: Bytes, header: string, body: Stream): Checked {
    if header == "" then Pass(body)
    else
      match c.decode(header)
      case None => Reject(500)
      case Some(sign) => if sign == c.mac(key, body.bytes) then Pass(Intact(body.bytes)) else Reject(400)
  }

  /** The checker reads the body through a tee, in pieces of any size, into the hash and into a buffer that
      becomes the new body. */
  method SumCheck(c: Crypto, key: Bytes, header: string, body: Stream) returns (r: Checked)
    ensures r == CheckSum(c, key, header, body)
    ensures r.Pass? <==> header == "" || c.decode(header) == Some(c.mac(key, body.bytes))
    ensures r.Pass? ==> r.body == if header == "" then body else Intact(body.bytes)
    ensures r.Reject? ==> r.code == if c.decode(header).None? then 500 else 400
  {
    if header == "" {
      return Pass(body);
    }
    var sign := c.decode(header);
    if sign.None? {
      return Reject(500);
    }
    var h := new Hash(key);
    var bodyBuf: Bytes := [];
    var at := 0;
    while at < |body.bytes|
      invariant at <= |body.bytes|
      invariant bodyBuf == body.bytes[..at] && h.written == body.bytes[..at]
    {
      var n: nat :| 0 < n <= |body.bytes| - at;
      var piece := body.bytes[at..at + n];
      assert body.bytes[..at + n] == body.bytes[..at] + piece;
      bodyBuf := bodyBuf + piece;
      h.Write(piece);
      at := at + n;
    }
    assert body.bytes[..at] == body.bytes;
    var sum := h.Sum(c);
    return if sign.value == sum then Pass(Intact(bodyBuf)) else Reject(400);
  }

  /** Go's `strings.Contains(encoding, "gzip")`. */
  predicate HasGzip(encoding: string) {
    |encoding| >= 4 && (encoding[..4] == "gzip" || HasGzip(encoding[1..]))
  }

  predicate GzipAt(s: string, i: int) {
    0 <= i <= |s| - 4 && s[i] == 'g' && s[i + 1] == 'z' && s[i + 2] == 'i' && s[i + 3] == 'p'
  }

  lemma {:induction false} HasGzipIff(s: string)
    ensures HasGzip(s) <==> exists i :: GzipAt(s, i)
  {
    if |s| >= 4 {
      HasGzipIff(s[1..]);
      assert s[..4] == "gzip" <==> GzipAt(s, 0);
      assert forall i :: GzipAt(s[1..], i) ==> GzipAt(s, i + 1);
      assert forall i :: i > 0 && GzipAt(s, i) ==> GzipAt(s[1..], i - 1);
    }
  }

  function Serve(c: Crypto, chain: seq<Middleware>, req: Request, errored: bool): Fate
    decreases |chain|
  {
    if chain == [] then Handled(req.body, errored)
    else
      var next := chain[1..];
      match chain[0]
      case Uncompress =>
        if !HasGzip(req.contentEncoding) then Serve(c, next, req, errored)
        else (match c.gunzip(req.body)
              case None => Answered(500)
              case Some(body) => Serve(c, next, req.(body := body), errored))
      case SumChecker(key) =>
        (match CheckSum(c, key, req.hashHeader, req.body)
         case Reject(code) => Answered(code)
         case Pass(body) => Serve(c, next, req.(body := body), errored))
      case Decrypter(priv) =>
        (match DecryptMsg(c, priv, req.body.bytes)
         case OutOfRange => Panicked
         // a failed read answers 500 but goes on with what was read, and so does a refusal with nothing
         case Refused => Serve(c, next, req.(body := Intact([])), true)
         case Plain(body) => Serve(c, next, req.(body := Intact(body)), errored || req.body.broken))
      case _ => Serve(c, next, req, errored)
  }

  ghost predicate EncryptionMatches(c: Crypto, client: Client, server: Server) {
    match (client.pub, server.priv)
    case (None, None) => true
    case (Some(pub), Some(priv)) => c.Pair(pub, priv)
    case _ => false
  }

  /** What the decrypting end makes of a body. */
  function Opened(c: Crypto, server: Server, body: Stream): Fate {
    if server.priv.None? then Handled(body, false)
    else
      match DecryptMsg(c, server.priv.value, body.bytes)
      case OutOfRange => Panicked
      case Refused => Handled(Intact([]), true)
      case Plain(message) => Handled(Intact(message), body.broken)
  }

  /** Both ends sign and do not agree on the signature. */
  predicate Disputed(c: Crypto, client: Client, server: Server, payload: Bytes) {
    client.signKey != [] && server.signKey != [] && c.mac(client.signKey, payload) != c.mac(server.signKey, payload)
  }

  lemma ServeIdle(c: Crypto, m: Middleware, rest: seq<Middleware>, req: Request, errored: bool)
    requires m.Logger? || m.Signer? || m.Compress?
    ensures Serve(c, [m] + rest, req, errored) == Serve(c, rest, req, errored)
  {
    assert ([m] + rest)[1..] == rest;
  }

  lemma ServeUncompress(c: Crypto, rest: seq<Middleware>, req: Request, errored: bool, body: Bytes)
    requires c.Lawful() && req.contentEncoding == "gzip" && req.body == Intact(c.gzip(body))
    ensures Serve(c, [Uncompress] + rest, req, errored) == Serve(c, rest, req.(body := Intact(body)), errored)
  {
    assert ([Uncompress] + rest)[1..] == rest;
    assert HasGzip(req.contentEncoding);
  }

  lemma ServeChecked(c: Crypto, client: Client, server: Server, rest: seq<Middleware>, req: Request)
    requires c.Lawful() && !req.body.broken
    requires req.hashHeader == if client.signKey == [] then "" else c.encode(c.mac(client.signKey, req.body.bytes))
    ensures Serve(c, Checkers(server) + rest, req, false) ==
            if Disputed(c, client, server, req.body.bytes) then Answered(400) else Serve(c, rest, req, false)
  {
    if server.signKey == [] {
      assert Checkers(server) + rest == rest;
    } else {
      var tail := [Signer(server.signKey)] + rest;
      assert (Checkers(server) + rest)[1..] == tail;
      ServeIdle(c, Signer(server.signKey), rest, req, false);
      if client.signKey != [] {
        var sign := c.mac(client.signKey, req.body.bytes);
        assert |sign| == 32;
        assert c.decode(c.encode(sign)) == Some(sign) && c.encode(sign) != "";
      }
    }
  }

  lemma ServeDecrypted(c: Crypto, server: Server, req: Request)
    ensures Serve(c, Decrypters(server) + [Compress], req, false) == Opened(c, server, req.body)
  {
    hide DecryptMsg;
    assert [Compress][1..] == [];
    if server.priv.None? {
      assert Decrypters(server) + [Compress] == [Compress];
    } else {
      assert (Decrypters(server) + [Compress])[1..] == [Compress];
    }
  }

  /** Whatever the two configurations, the server takes off compression, then settles the signature, then opens
      exactly the payload that the agent had compressed and signed. */
  lemma LayersComeOff(c: Crypto, client: Client, server: Server, p: Bytes, e: Entropy)
    requires c.Lawful()
    ensures var payload := Payload(c, client, p, e);
            Serve(c, UpdateChain(server), RequestFor(c, client, p, e), false) ==
            if Disputed(c, client, server, payload) then Answered(400) else Opened(c, server, Intact(payload))
  {
    hide Serve, Encrypted, Opened, Disputed, Checkers, Decrypters;
    var payload := Payload(c, client, p, e);
    var req := RequestFor(c, client, p, e);
    var inner := Decrypters(server) + [Compress];
    var checked := Checkers(server) + inner;
    assert UpdateChain(server) == [Logger] + ([Uncompress] + checked);
    ServeIdle(c, Logger, [Uncompress] + checked, req, false);
    ServeUncompress(c, checked, req, false, payload);
    ServeChecked(c, client, server, inner, req.(body := Intact(payload)));
    ServeDecrypted(c, server, req.(body := Intact(payload)));
  }

  /** With encryption on at both ends with a matching pair, or off at both, the handler receives the original
      message exactly when the ends do not dispute the signature, and otherwise the answer is 400. */
  lemma EnvelopeRoundTrip(c: Crypto, client: Client, server: Server, p: Bytes, e: Entropy)
    requires c.Lawful() && e.Valid() && EncryptionMatches(c, client, server)
    ensures Serve(c, UpdateChain(server), RequestFor(c, client, p, e), false) ==
            if Disputed(c, client, server, Payload(c, client, p, e)) then Answered(400) else Handled(Intact(p), false)
  {
    hide Serve, RequestFor, UpdateChain, Disputed, Encrypted, DecryptMsg;
    LayersComeOff(c, client, server, p, e);
    if server.priv.Some? {
      DecryptOfEncrypt(c, client.pub.value, server.priv.value, p, e);
    }
  }

  /** In particular with one shared signing key, or a key at one end only. */
  lemma MessageArrives(c: Crypto, client: Client, server: Server, p: Bytes, e: Entropy)
    requires c.Lawful() && e.Valid() && EncryptionMatches(c, client, server)
    requires client.signKey != [] && server.signKey != [] ==> client.signKey == server.signKey
    ensures Serve(c, UpdateChain(server), RequestFor(c, client, p, e), false) == Handled(Intact(p), false)
  {
    hide Serve, RequestFor, UpdateChain;
    EnvelopeRoundTrip(c, client, server, p, e);
  }

  /** The server decrypts what was never encrypted: it panics if and only if the report is shorter than a key
      block and the signatures agree. */
  lemma UnencryptedPanicsIff(c: Crypto, client: Client, server: Server, p: Bytes, e: Entropy)
    requires c.Lawful() && client.pub == None && server.priv.Some?
    ensures Serve(c, UpdateChain(server), RequestFor(c, client, p, e), false) == Panicked <==>
            !Disputed(c, client, server, p) && |p| < ENC_KEY_SIZE
  {
    hide Serve, RequestFor, UpdateChain, Disputed;
    LayersComeOff(c, client, server, p, e);
  }

  // ----- any request

  function Unzipped(c: Crypto, req: Request): Option<Stream> {
    if HasGzip(req.contentEncoding) then c.gunzip(req.body) else Some(req.body)
  }

  /** The body that is left to the decrypting end of any request, or the answer before. */
  function Reaching(c: Crypto, server: Server, req: Request): Result<Stream, Fate> {
    match Unzipped(c, req)
    case None => Err(Answered(500))
    case Some(body) =>
      if server.signKey == [] then Ok(body)
      else
        match CheckSum(c, server.signKey, req.hashHeader, body)
        case Reject(code) => Err(Answered(code))
        case Pass(checked) => Ok(checked)
  }

  lemma ServeStep(c: Crypto, m: Middleware, rest: seq<Middleware>, req: Request)
    requires m.Uncompress? || m.SumChecker?
    ensures m.Uncompress? ==>
              var unzipped := Unzipped(c, req);
              Serve(c, [m] + rest, req, false) ==
              if unzipped.None? then Answered(500) else Serve(c, rest, req.(body := unzipped.value), false)
    ensures m.SumChecker? ==>
              var checked := CheckSum(c, m.key, req.hashHeader, req.body);
              Serve(c, [m] + rest, req, false) ==
              if checked.Reject? then Answered(checked.code) else Serve(c, rest, req.(body := checked.body), false)
  {
    assert ([m] + rest)[1..] == rest;
    assert req.(body := req.body) == req;
  }

  lemma ServeAny(c: Crypto, server: Server, req: Request)
    ensures Serve(c, UpdateChain(server), req, false) ==
            match Reaching(c, server, req) case Err(fate) => fate case Ok(body) => Opened(c, server, body)
  {
    hide Serve, Opened, CheckSum, HasGzip, Decrypters;
    var inner := Decrypters(server) + [Compress];
    var checked := Checkers(server) + inner;
    assert UpdateChain(server) == [Logger] + ([Uncompress] + checked);
    ServeIdle(c, Logger, [Uncompress] + checked, req, false);
    ServeStep(c, Uncompress, checked, req);
    var unzipped := Unzipped(c, req);
    if unzipped.Some? {
      var plain := req.(body := unzipped.value);
      ServeDecrypted(c, server, plain);
      if server.signKey == [] {
        assert checked == inner;
      } else {
        assert checked == [SumChecker(server.signKey)] + ([Signer(server.signKey)] + inner);
        ServeStep(c, SumChecker(server.signKey), [Signer(server.signKey)] + inner, plain);
        var r := CheckSum(c, server.signKey, req.hashHeader, plain.body);
        if r.Pass? {
          ServeIdle(c, Signer(server.signKey), inner, plain.(body := r.body), false);
          ServeDecrypted(c, server, plain.(body := r.body));
        }
      }
    }
  }

  /** At a server with a signing key, any request whatever gets past the checker exactly if it has no signature or one that
      decodes to the sum of the bytes that could be read; the answer to a signature that does not decode is 500, and to
      any other it is 400. */
  lemma SignatureDecides(c: Crypto, server: Server, req: Request)
    requires server.signKey != []
    ensures var fate := Serve(c, UpdateChain(server), req, false);
            var unzipped := if HasGzip(req.contentEncoding) then c.gunzip(req.body) else Some(req.body);
            match unzipped
            case None => fate == Answered(500)
            case Some(body) =>
              if req.hashHeader == "" then fate == Opened(c, server, body)
              else if c.decode(req.hashHeader) == Some(c.mac(server.signKey, body.bytes)) then
                fate == Opened(c, server, Intact(body.bytes))
              else fate == Answered(if c.decode(req.hashHeader).None? then 500 else 400)
    ensures forall body :: !Opened(c, server, body).Answered?
  {
    hide Serve, UpdateChain, HasGzip, DecryptMsg;
    ServeAny(c, server, req);
  }

  /** For any request at all: the handler runs after a 500 was already answered exactly when the body gets as far as a
      decrypter that either refuses it - the handler then gets nothing - or could not read it to its end and still
      decrypts what it read - the handler then gets the whole message. */
  lemma HandledAfterErrorIff(c: Crypto, server: Server, req: Request, body: Stream)
    ensures Serve(c, UpdateChain(server), req, false) == Handled(body, true) <==>
            server.priv.Some? && Reaching(c, server, req).Ok? && !body.broken
            && match DecryptMsg(c, server.priv.value, Reaching(c, server, req).value.bytes)
               case OutOfRange => false
               case Refused => body.bytes == []
               case Plain(message) => Reaching(c, server, req).value.broken && body.bytes == message
  {
    hide Serve, UpdateChain, DecryptMsg, CheckSum, HasGzip;
    ServeAny(c, server, req);
  }

  /** For instance with any ciphers: a plain unsigned request that has room for the key block but not for the nonce. */
  lemma ShortMessageHandledAfterError(c: Crypto, server: Server, body: Bytes)
    requires server.priv.Some? && ENC_KEY_SIZE <= |body| < ENC_KEY_SIZE + NONCE_SIZE
    ensures Serve(c, UpdateChain(server), Request("", "", Intact(body)), false) == Handled(Intact([]), true)
  {
    hide Serve, UpdateChain;
    HandledAfterErrorIff(c, server, Request("", "", Intact(body)), Intact([]));
  }

  /** And a whole message: it was encrypted for the server, is unsigned, and its transport or its gzip stream breaks
      after the last byte. */
  lemma BrokenMessageHandledAfterError(c: Crypto, pub: PublicKey, server: Server, p: Bytes, e: Entropy, req: Request)
    requires c.Lawful() && e.Valid() && server.priv.Some? && c.Pair(pub, server.priv.value)
    requires req.hashHeader == "" && Unzipped(c, req) == Some(Stream(Encrypted(c, pub, p, e), true))
    ensures Serve(c, UpdateChain(server), req, false) == Handled(Intact(p), true)
  {
    hide Serve, UpdateChain, DecryptMsg, Encrypted, Unzipped;
    DecryptOfEncrypt(c, pub, server.priv.value, p, e);
    HandledAfterErrorIff(c, server, req, Intact(p));
  }

  /** A signature, on the other hand, mends a body that breaks after the signed bytes: it is handled as if it were
      whole. */
  lemma SignatureMendsBody(c: Crypto, server: Server, req: Request, payload: Bytes)
    requires c.Lawful() && server.signKey != [] && req.hashHeader == c.encode(c.mac(server.signKey, payload))
    requires Unzipped(c, req) == Some(Stream(payload, true))
    ensures Serve(c, UpdateChain(server), req, false) == Opened(c, server, Intact(payload))
  {
    hide Serve, UpdateChain, Opened, Unzipped;
    var sign := c.mac(server.signKey, payload);
    assert |sign| == 32;
    assert c.decode(c.encode(sign)) == Some(sign) && c.encode(sign) != "";
    ServeAny(c, server, req);
  }

  /** The reports of one worker all arrive as they were posted, in order. */
  lemma EveryPostArrives(c: Crypto, client: Client, server: Server, ps: seq<Bytes>, es: seq<Entropy>, reqs: seq<Request>)
    requires c.Lawful() && EncryptionMatches(c, client, server) && |es| == |ps| == |reqs|
    requires forall e | e in es :: e.Valid()
    requires client.signKey != [] && server.signKey != [] ==> client.signKey == server.signKey
    requires forall i | 0 <= i < |ps| :: reqs[i] == RequestFor(c, client, ps[i], es[i])
    ensures forall i | 0 <= i < |ps| :: Serve(c, UpdateChain(server), reqs[i], false) == Handled(Intact(ps[i]), false)
  {
    hide Serve, RequestFor, UpdateChain;
    forall i | 0 <= i < |ps|
      ensures Serve(c, UpdateChain(server), reqs[i], false) == Handled(Intact(ps[i]), false)
    {
      assert es[i] in es;
      MessageArrives(c, client, server, ps[i], es[i]);
    }
  }
}

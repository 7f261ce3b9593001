/** The compressing response writer (internal/monserv/middlewares/middlewares.go) over a net/http response and a
    gzip writer from the pool. */
module GzipWriter {
  import opened Wrappers
  import Envelope

  type Byte = Envelope.Byte
  type Bytes = Envelope.Bytes
  type Header = map<string, string>

  const CONTENT_ENCODING := "Content-Encoding"
  const CONTENT_LENGTH := "Content-Length"

  function Get(h: Header, k: string): string {
    if k in h then h[k] else ""
  }

  // ----- what the library does

  /** A response as net/http keeps it: the header under construction, the status line and header that went to the
      wire, and the body. */
  datatype Sent = Sent(code: nat, header: Header)
  datatype Wire = Wire(header: Header, sent: Option<Sent>, body: Bytes)

  predicate Informational(code: nat) {
    100 <= code < 200 && code != 101
  }

  predicate BodyAllowed(code: nat) {
    !(100 <= code < 200) && code != 204 && code != 304
  }

  function SendHeader(w: Wire, code: nat): Wire {
    if w.sent.Some? || Informational(code) then w else w.(sent := Some(Sent(code, w.header)))
  }

  function Send(w: Wire, p: Bytes): Wire {
    var w' := SendHeader(w, 200);
    if w'.sent.Some? && BodyAllowed(w'.sent.value.code) then w'.(body := w'.body + p) else w'
  }

  /** A gzip writer emits something after each of its writes and the rest when it is closed. */
  datatype Codec = Codec(onWrite: seq<Bytes> -> Bytes, onClose: seq<Bytes> -> Bytes, gunzip: Bytes -> Option<Bytes>) {
    function Emitted(writes: seq<Bytes>): Bytes {
      if writes == [] then [] else Emitted(writes[..|writes| - 1]) + onWrite(writes)
    }

    /** The whole stream decompresses to what was written; the gzip header comes out with the first write. */
    ghost predicate Lawful() {
      && (forall ws: seq<Bytes> :: gunzip(Emitted(ws) + onClose(ws)) == Some(Flat(ws)))
      && (forall ws: seq<Bytes> | |ws| == 1 :: onWrite(ws) != [])
      && onClose([]) != []
    }
  }

  function Flat(ws: seq<Bytes>): Bytes {
    if ws == [] then [] else Flat(ws[..|ws| - 1]) + ws[|ws| - 1]
  }

  /** A toy codec that marks the start of its stream with one byte meets the law. */
  lemma LawIsMet() returns (c: Codec)
    ensures c.Lawful()
  {
    c := Codec(
      ws => if |ws| == 1 then [1] else [],
      ws => if ws == [] then [0] else Flat(ws),
      b => if b == [] then None else Some(b[1..]));
    forall ws: seq<Bytes>
      ensures c.gunzip(c.Emitted(ws) + c.onClose(ws)) == Some(Flat(ws))
    {
      StartByte(c, ws);
      var start: Byte := if ws == [] then 0 else 1;
      assert c.Emitted(ws) + c.onClose(ws) == [start] + Flat(ws);
      assert ([start] + Flat(ws))[1..] == Flat(ws);
    }
  }

  lemma {:induction false} StartByte(c: Codec, ws: seq<Bytes>)
    requires forall ws :: c.onWrite(ws) == if |ws| == 1 then [1] else []
    ensures c.Emitted(ws) == if ws == [] then [] else [1]
  {
    if ws != [] {
      StartByte(c, ws[..|ws| - 1]);
    }
  }

  class ResponseWriter {
    var header: Header
    var sent: Option<Sent>
    var body: Bytes

    constructor (header: Header)
      ensures Now() == Wire(header, None, [])
    {
      this.header := header;
      sent := None;
      body := [];
    }

    function Now(): Wire
      reads this
    {
      Wire(header, sent, body)
    }

    method WriteHeader(code: nat)
      requires 100 <= code <= 999
      modifies this
      ensures Now() == SendHeader(old(Now()), code)
    {
      if sent.None? && !Informational(code) {
        sent := Some(Sent(code, header));
      }
    }

    method Write(p: Bytes)
      modifies this
      ensures Now() == Send(old(Now()), p)
    {
      if sent.None? {
        WriteHeader(200);
      }
      if BodyAllowed(sent.value.code) {
        body := body + p;
      }
    }
  }

  /** `gzip.Writer`; without a target it writes to the discard sink. */
  class Compressor {
    const codec: Codec
    var target: ResponseWriter?
    var writes: seq<Bytes>

    constructor (codec: Codec)
      ensures this.codec == codec && target == null && writes == []
    {
      this.codec := codec;
      target := null;
      writes := [];
    }

    method Reset(t: ResponseWriter?)
      modifies this
      ensures target == t && writes == []
    {
      target := t;
      writes := [];
    }

    method Emit(out: Bytes)
      modifies target
      ensures target != null ==> target.Now() == if out == [] then old(target.Now()) else Send(old(target.Now()), out)
    {
      if target != null && out != [] {
        target.Write(out);
      }
    }

    method Write(p: Bytes)
      modifies this, target
      ensures target == old(target) && writes == old(writes) + [p]
      ensures target != null ==> target.Now() == Passed(old(target.Now()), codec.onWrite(writes))
    {
      writes := writes + [p];
      Emit(codec.onWrite(writes));
    }

    method Close()
      modifies target
      ensures target != null ==> target.Now() == Passed(old(target.Now()), codec.onClose(writes))
    {
      Emit(codec.onClose(writes));
    }
  }

  function Passed(w: Wire, out: Bytes): Wire {
    if out == [] then w else Send(w, out)
  }

  /** `sync.Pool`: it may hand out what it holds or make a new writer. */
  class Pool {
    const codec: Codec
    var items: set<Compressor>

    ghost predicate Valid()
      reads this, items
    {
      forall w | w in items :: w.codec == codec && w.target == null && w.writes == []
    }

    constructor (codec: Codec)
      ensures Valid() && this.codec == codec && items == {}
    {
      this.codec := codec;
      items := {};
    }

    method Take() returns (w: Compressor)
      requires Valid()
      modifies this
      ensures Valid() && w !in items && items == old(items) - {w}
      ensures w.codec == codec && w.target == null && w.writes == []
      ensures w in old(items) || fresh(w)
    {
      var pooled: bool := *;
      if pooled && items != {} {
        w :| w in items;
        items := items - {w};
      } else {
        w := new Compressor(codec);
      }
    }

    method Put(w: Compressor)
      requires Valid() && w.codec == codec && w.target == null && w.writes == []
      modifies this
      ensures Valid() && items == old(items) + {w}
    {
      items := items + {w};
    }
  }

  // ----- the response writer of the middleware

  /** A response under way: the wire, what went into the compressor, and whether a header was asked for. */
  datatype Response = Response(wire: Wire, writes: seq<Bytes>, wroteHeader: bool)

  function Announced(w: Wire): Wire {
    if Get(w.header, CONTENT_ENCODING) != "" then w
    else w.(header := w.header[CONTENT_ENCODING := "gzip"] - {CONTENT_LENGTH})
  }

  function HeaderWritten(r: Response, code: nat): Response {
    r.(wire := SendHeader(if r.wroteHeader then r.wire else Announced(r.wire), code), wroteHeader := true)
  }

  function Written(c: Codec, r: Response, p: Bytes): Response {
    var r' := if r.wroteHeader then r else HeaderWritten(r, 200);
    var writes := r'.writes + [p];
    r'.(writes := writes, wire := Passed(r'.wire, c.onWrite(writes)))
  }

  function Closed(c: Codec, r: Response): Wire {
    Passed(r.wire, c.onClose(r.writes))
  }

  class GzipResponseWriter {
    const rw: ResponseWriter
    const writer: Compressor
    const pool: Pool
    var wroteHeader: bool

    ghost predicate Valid()
      reads this, writer, pool, pool.items
    {
      writer.target == rw && writer.codec == pool.codec && pool.Valid() && writer !in pool.items
    }

    ghost function Now(): Response
      reads this, writer, rw
    {
      Response(rw.Now(), writer.writes, wroteHeader)
    }

    constructor (rw: ResponseWriter, pool: Pool)
      requires pool.Valid()
      modifies pool, pool.items
      ensures Valid() && this.rw == rw && this.pool == pool
      ensures Now() == Response(old(rw.Now()), [], false)
      ensures pool.items == old(pool.items) - {writer} && (writer in old(pool.items) || fresh(writer))
    {
      var gz := pool.Take();
      gz.Reset(rw);
      this.rw := rw;
      writer := gz;
      this.pool := pool;
      wroteHeader := false;
    }

    method WriteHeader(code: nat)
      requires Valid() && 100 <= code <= 999
      modifies this, rw
      ensures Valid() && Now() == HeaderWritten(old(Now()), code)
    {
      if wroteHeader {
        rw.WriteHeader(code);
        return;
      }
      wroteHeader := true;
      if Get(rw.header, CONTENT_ENCODING) == "" {
        rw.header := rw.header[CONTENT_ENCODING := "gzip"];
        rw.header := rw.header - {CONTENT_LENGTH};
      }
      rw.WriteHeader(code);
    }

    method Write(p: Bytes)
      requires Valid()
      modifies this, rw, writer
      ensures Valid() && Now() == Written(writer.codec, old(Now()), p)
    {
      if !wroteHeader {
        WriteHeader(200);
      }
      writer.Write(p);
    }

    /** Afterwards the writer is back in the pool and points at the discard sink. */
    method Close()
      requires Valid()
      modifies rw, writer, pool
      ensures rw.Now() == Closed(writer.codec, old(Now()))
      ensures pool.Valid() && pool.items == old(pool.items) + {writer}
    {
      writer.Close();
      writer.Reset(null);
      pool.Put(writer);
    }
  }

  // ----- whole responses

  datatype Op = SetHeader(k: string, v: string) | WriteHeader(code: nat) | Write(p: Bytes)

  function Perform(c: Codec, r: Response, op: Op): Response {
    match op
    case SetHeader(k, v) => r.(wire := r.wire.(header := r.wire.header[k := v]))
    case WriteHeader(code) => HeaderWritten(r, code)
    case Write(p) => Written(c, r, p)
  }

  function Run(c: Codec, r: Response, ops: seq<Op>): Response {
    if ops == [] then r else Perform(c, Run(c, r, ops[..|ops| - 1]), ops[|ops| - 1])
  }

  /** What a handler does to a response that is not compressed. */
  function PerformPlain(w: Wire, op: Op): Wire {
    match op
    case SetHeader(k, v) => w.(header := w.header[k := v])
    case WriteHeader(code) => SendHeader(w, code)
    case Write(p) => Send(w, p)
  }

  function PlainRun(w: Wire, ops: seq<Op>): Wire {
    if ops == [] then w else PerformPlain(PlainRun(w, ops[..|ops| - 1]), ops[|ops| - 1])
  }

  /** The two request headers that decide: a request is also compressed for if it does not accept gzip but sends JSON
      or HTML itself. */
  datatype Asked = Asked(acceptEncoding: string, contentType: string)

  predicate Compresses(a: Asked) {
    Envelope.HasGzip(a.acceptEncoding) || "application/json" <= a.contentType || "text/html" <= a.contentType
  }

  /** Nothing is compressed exactly if nowhere in the accepted encodings gzip is named and the request sends neither. */
  lemma BypassIff(a: Asked)
    ensures !Compresses(a) <==>
            (forall i :: !Envelope.GzipAt(a.acceptEncoding, i))
            && !("application/json" <= a.contentType) && !("text/html" <= a.contentType)
  {
    Envelope.HasGzipIff(a.acceptEncoding);
  }

  predicate Statuses(ops: seq<Op>) {
    forall op | op in ops && op.WriteHeader? :: 100 <= op.code <= 999
  }

  /** The middleware around one handler call. */
  method Compressed(rw: ResponseWriter, pool: Pool, asked: Asked, ops: seq<Op>)
    requires pool.Valid() && Statuses(ops)
    modifies rw, pool, pool.items
    ensures rw.Now() == if Compresses(asked) then Closed(pool.codec, Run(pool.codec, Response(old(rw.Now()), [], false), ops))
                        else PlainRun(old(rw.Now()), ops)
    ensures pool.Valid() && (!Compresses(asked) ==> pool.items == old(pool.items))
  {
    if !Envelope.HasGzip(asked.acceptEncoding) && !("application/json" <= asked.contentType)
       && !("text/html" <= asked.contentType) {
      ServePlain(rw, ops);
      return;
    }
    var gw := new GzipResponseWriter(rw, pool);
    ghost var start := gw.Now();
    for i := 0 to |ops|
      invariant gw.Valid() && gw.rw == rw && gw.pool == pool
      invariant gw.writer in old(pool.items) || fresh(gw.writer)
      invariant gw.Now() == Run(pool.codec, start, ops[..i])
    {
      assert ops[i] in ops;
      assert ops[..i + 1][..i] == ops[..i];
      match ops[i]
      case SetHeader(k, v) => rw.header := rw.header[k := v];
      case WriteHeader(code) => gw.WriteHeader(code);
      case Write(p) => gw.Write(p);
    }
    assert ops[..|ops|] == ops;
    gw.Close();
  }

  method ServePlain(rw: ResponseWriter, ops: seq<Op>)
    requires Statuses(ops)
    modifies rw
    ensures rw.Now() == PlainRun(old(rw.Now()), ops)
  {
    for i := 0 to |ops|
      invariant rw.Now() == PlainRun(old(rw.Now()), ops[..i])
    {
      assert ops[i] in ops;
      assert ops[..i + 1][..i] == ops[..i];
      match ops[i]
      case SetHeader(k, v) => rw.header := rw.header[k := v];
      case WriteHeader(code) => rw.WriteHeader(code);
      case Write(p) => rw.Write(p);
    }
    assert ops[..|ops|] == ops;
  }

  predicate HasCall(ops: seq<Op>) {
    exists op | op in ops :: !op.SetHeader?
  }

  function Writes(ops: seq<Op>): seq<Bytes> {
    if ops == [] then []
    else
      var op := ops[|ops| - 1];
      Writes(ops[..|ops| - 1]) + if op.Write? then [op.p] else []
  }

  /** The first status that is not merely informational; a write settles it on 200. */
  function FinalCode(ops: seq<Op>): Option<nat> {
    if ops == [] then None else NextCode(FinalCode(ops[..|ops| - 1]), ops[|ops| - 1])
  }

  function NextCode(code: Option<nat>, op: Op): Option<nat> {
    if code.Some? then code
    else if op.Write? then Some(200)
    else if op.WriteHeader? && !Informational(op.code) then Some(op.code) else None
  }

  /** The content encoding in the header under construction: a handler may set it, and the first write or status puts
      gzip where there is none. */
  function EncodingAfter(h: Header, ops: seq<Op>): string {
    if ops == [] then Get(h, CONTENT_ENCODING)
    else NextEncoding(EncodingAfter(h, ops[..|ops| - 1]), HasCall(ops[..|ops| - 1]), ops[|ops| - 1])
  }

  function NextEncoding(encoding: string, called: bool, op: Op): string {
    match op
    case SetHeader(k, v) => if k == CONTENT_ENCODING then v else encoding
    case _ => if !called && encoding == "" then "gzip" else encoding
  }

  /** The content encoding that goes to the wire: what stood in the header when the status was settled. */
  function SentEncoding(h: Header, ops: seq<Op>): string {
    if ops != [] && FinalCode(ops[..|ops| - 1]).Some? then SentEncoding(h, ops[..|ops| - 1]) else EncodingAfter(h, ops)
  }

  /** How a response stands after `writes`, whether or not anything was called, with the status so far and the
      encodings in the header and on the wire. */
  ghost predicate Stands(c: Codec, r: Response, writes: seq<Bytes>, called: bool, code: Option<nat>,
                         encoding: string, sent: string)
  {
    && r.writes == writes && r.wroteHeader == called && Get(r.wire.header, CONTENT_ENCODING) == encoding
    && match code
       case None => r.wire.sent == None && r.wire.body == [] && writes == [] && sent == encoding
       case Some(code) =>
         && called && r.wire.sent.Some? && r.wire.sent.value.code == code
         && Get(r.wire.sent.value.header, CONTENT_ENCODING) == sent
         && r.wire.body == if BodyAllowed(code) then c.Emitted(writes) else []
  }

  /** What is on the wire once the code is settled stays. */
  function NextSent(code: Option<nat>, sent: string, encoding: string): string {
    if code.Some? then sent else encoding
  }

  lemma SetHeaderKeeps(c: Codec, r: Response, writes: seq<Bytes>, called: bool, code: Option<nat>,
                       encoding: string, sent: string, op: Op)
    requires Stands(c, r, writes, called, code, encoding, sent) && op.SetHeader?
    ensures var e := NextEncoding(encoding, called, op);
            Stands(c, Perform(c, r, op), writes, called, code, e, NextSent(code, sent, e))
  {
  }

  lemma WriteHeaderKeeps(c: Codec, r: Response, writes: seq<Bytes>, called: bool, code: Option<nat>,
                         encoding: string, sent: string, status: nat)
    requires Stands(c, r, writes, called, code, encoding, sent)
    ensures var op := WriteHeader(status);
            var e := NextEncoding(encoding, called, op);
            Stands(c, HeaderWritten(r, status), writes, true, NextCode(code, op), e, NextSent(code, sent, e))
  {
  }

  lemma EmittedStep(c: Codec, writes: seq<Bytes>, p: Bytes)
    ensures c.Emitted(writes + [p]) == c.Emitted(writes) + c.onWrite(writes + [p])
    ensures c.Emitted([]) == []
  {
    assert (writes + [p])[..|writes|] == writes;
  }

  /** Once a header was asked for. */
  lemma BytesKeep(c: Codec, r: Response, writes: seq<Bytes>, code: Option<nat>, encoding: string, sent: string, p: Bytes)
    requires c.Lawful() && Stands(c, r, writes, true, code, encoding, sent)
    ensures Stands(c, Written(c, r, p), writes + [p], true, NextCode(code, Write(p)), encoding, sent)
  {
    hide c.Lawful, c.Emitted;
    FirstEmits(c, writes, p);
    EmittedStep(c, writes, p);
    var out, before := c.onWrite(writes + [p]), c.Emitted(writes);
    assert before + [] == before && [] + out == out;
  }

  lemma FirstEmits(c: Codec, writes: seq<Bytes>, p: Bytes)
    requires c.Lawful()
    ensures writes == [] ==> c.onWrite(writes + [p]) != []
  {
    if writes == [] {
      assert |writes + [p]| == 1;
    }
  }

  lemma WriteKeeps(c: Codec, r: Response, writes: seq<Bytes>, called: bool, code: Option<nat>,
                   encoding: string, sent: string, p: Bytes)
    requires c.Lawful() && Stands(c, r, writes, called, code, encoding, sent)
    ensures var e := NextEncoding(encoding, called, Write(p));
            Stands(c, Written(c, r, p), writes + [p], true, NextCode(code, Write(p)), e, NextSent(code, sent, e))
  {
    hide c.Lawful, Stands, HeaderWritten;
    StandsMeans(c, r, writes, called, code, encoding, sent);
    if called {
      BytesKeep(c, r, writes, code, encoding, sent, p);
    } else {
      var r', op, e := HeaderWritten(r, 200), WriteHeader(200), NextEncoding(encoding, called, Write(p));
      WriteHeaderKeeps(c, r, writes, called, code, encoding, sent, 200);
      StandsMeans(c, r', writes, true, NextCode(code, op), e, NextSent(code, sent, e));
      BytesKeep(c, r', writes, NextCode(code, op), e, NextSent(code, sent, e), p);
      assert Written(c, r, p) == Written(c, r', p);
    }
  }

  lemma StandsMeans(c: Codec, r: Response, writes: seq<Bytes>, called: bool, code: Option<nat>,
                    encoding: string, sent: string)
    requires Stands(c, r, writes, called, code, encoding, sent)
    ensures r.wroteHeader == called && (!called ==> code == None) && (code == None ==> sent == encoding)
  {
  }

  lemma OpsGrow(h: Header, ops: seq<Op>, op: Op)
    ensures HasCall(ops + [op]) <==> HasCall(ops) || !op.SetHeader?
    ensures Writes(ops + [op]) == Writes(ops) + if op.Write? then [op.p] else []
    ensures FinalCode(ops + [op]) == NextCode(FinalCode(ops), op)
    ensures var e := NextEncoding(EncodingAfter(h, ops), HasCall(ops), op);
            EncodingAfter(h, ops + [op]) == e
            && SentEncoding(h, ops + [op]) == NextSent(FinalCode(ops), SentEncoding(h, ops), e)
  {
    assert (ops + [op])[..|ops|] == ops;
    assert op in ops + [op];
    assert forall o :: o in ops + [op] <==> o in ops || o == op;
  }

  ghost predicate UnderWay(c: Codec, r: Response, h: Header, ops: seq<Op>) {
    Stands(c, r, Writes(ops), HasCall(ops), FinalCode(ops), EncodingAfter(h, ops), SentEncoding(h, ops))
  }

  lemma {:induction false} RunKeeps(c: Codec, h: Header, ops: seq<Op>)
    requires c.Lawful()
    ensures UnderWay(c, Run(c, Response(Wire(h, None, []), [], false), ops), h, ops)
  {
    hide Stands, Written, HeaderWritten, c.Lawful, HasCall, NextCode, NextEncoding, NextSent;
    if ops == [] {
      StartStands(c, h);
    } else {
      var init, op := ops[..|ops| - 1], ops[|ops| - 1];
      assert ops == init + [op];
      RunKeeps(c, h, init);
      OpsGrow(h, init, op);
      var r := Run(c, Response(Wire(h, None, []), [], false), init);
      var writes, called, code := Writes(init), HasCall(init), FinalCode(init);
      var encoding, sent := EncodingAfter(h, init), SentEncoding(h, init);
      assert writes + [] == writes;
      match op
      case SetHeader(k, v) =>
        SetHeaderKeeps(c, r, writes, called, code, encoding, sent, op);
        SameCode(code, op);
      case WriteHeader(status) => WriteHeaderKeeps(c, r, writes, called, code, encoding, sent, status);
      case Write(p) => WriteKeeps(c, r, writes, called, code, encoding, sent, p);
    }
  }

  lemma SameCode(code: Option<nat>, op: Op)
    requires op.SetHeader?
    ensures NextCode(code, op) == code
  {
  }

  lemma StartStands(c: Codec, h: Header)
    ensures Stands(c, Response(Wire(h, None, []), [], false), [], false, None,
                   Get(h, CONTENT_ENCODING), Get(h, CONTENT_ENCODING))
    ensures !HasCall([])
  {
  }

  /** Whatever a handler does behind the compressing writer, the client gets a status line, the content encoding that stood in the header when the
      status was settled, and a body that decompresses to the concatenation of the handler's writes - even if the
      announced encoding is another one, or none. */
  lemma ResponseDecompresses(c: Codec, h: Header, ops: seq<Op>)
    requires c.Lawful()
    ensures var w := Closed(c, Run(c, Response(Wire(h, None, []), [], false), ops));
            && w.sent.Some?
            && w.sent.value.code == FinalCode(ops).GetOrElse(200)
            && Get(w.sent.value.header, CONTENT_ENCODING) == SentEncoding(h, ops)
            && if BodyAllowed(w.sent.value.code) then c.gunzip(w.body) == Some(Flat(Writes(ops))) && (!HasCall(ops) ==> w.body != [])
               else w.body == []
  {
    hide c.Lawful, Stands, Run;
    RunKeeps(c, h, ops);
    CloseFinishes(c, Run(c, Response(Wire(h, None, []), [], false), ops), Writes(ops), HasCall(ops), FinalCode(ops),
                  EncodingAfter(h, ops), SentEncoding(h, ops));
  }

  lemma CloseFinishes(c: Codec, r: Response, writes: seq<Bytes>, called: bool, code: Option<nat>,
                      encoding: string, sent: string)
    requires c.Lawful() && Stands(c, r, writes, called, code, encoding, sent)
    ensures var w := Closed(c, r);
            && w.sent.Some?
            && w.sent.value.code == code.GetOrElse(200)
            && Get(w.sent.value.header, CONTENT_ENCODING) == sent
            && if BodyAllowed(w.sent.value.code) then c.gunzip(w.body) == Some(Flat(writes)) && (!called ==> w.body != [])
               else w.body == []
  {
    hide c.Lawful, Flat;
    StreamLaws(c, writes);
    assert [] + c.onClose(writes) == c.onClose(writes);
    assert c.Emitted(writes) + [] == c.Emitted(writes);
  }

  lemma StreamLaws(c: Codec, writes: seq<Bytes>)
    requires c.Lawful()
    ensures c.gunzip(c.Emitted(writes) + c.onClose(writes)) == Some(Flat(writes))
    ensures writes == [] ==> c.Emitted(writes) == [] && c.onClose(writes) != []
  {
  }

  // ----- when gzip is announced

  ghost predicate LeavesEncoding(ops: seq<Op>) {
    forall op | op in ops && op.SetHeader? :: op.k != CONTENT_ENCODING
  }

  /** A handler that leaves the encoding alone has gzip announced exactly if it wrote or set a status and no encoding
      stood in the header before; an encoding that stood there is announced although the body is a gzip stream. */
  lemma {:induction false} EncodingLeftAlone(h: Header, ops: seq<Op>)
    requires LeavesEncoding(ops)
    ensures SentEncoding(h, ops) == EncodingAfter(h, ops)
    ensures SentEncoding(h, ops) == if Get(h, CONTENT_ENCODING) == "" && HasCall(ops) then "gzip"
                                    else Get(h, CONTENT_ENCODING)
    ensures FinalCode(ops).Some? ==> HasCall(ops)
  {
    if ops != [] {
      var init, op := ops[..|ops| - 1], ops[|ops| - 1];
      assert ops == init + [op];
      assert op in ops;
      EncodingLeftAlone(h, init);
      OpsGrow(h, init, op);
    }
  }

  // ----- without compression

  /** How an uncompressed response stands. */
  ghost predicate StandsPlain(w: Wire, writes: seq<Bytes>, code: Option<nat>) {
    match code
    case None => w.sent == None && w.body == [] && writes == []
    case Some(code) => w.sent.Some? && w.sent.value.code == code && w.body == if BodyAllowed(code) then Flat(writes) else []
  }

  /** No encoding but the one that stood in the header before. */
  ghost predicate Encoded(w: Wire, encoding: string) {
    Get(w.header, CONTENT_ENCODING) == encoding
    && (w.sent.Some? ==> Get(w.sent.value.header, CONTENT_ENCODING) == encoding)
  }

  lemma FlatStep(writes: seq<Bytes>, p: Bytes)
    ensures Flat(writes + [p]) == Flat(writes) + p && Flat([]) == []
  {
    assert (writes + [p])[..|writes|] == writes;
  }

  lemma PlainStep(w: Wire, writes: seq<Bytes>, code: Option<nat>, op: Op)
    requires StandsPlain(w, writes, code)
    ensures StandsPlain(PerformPlain(w, op), writes + (if op.Write? then [op.p] else []), NextCode(code, op))
  {
    hide Flat;
    assert writes + [] == writes;
    FlatStep(writes, if op.Write? then op.p else []);
  }

  /** A response that is not compressed for has the first final status and the plain concatenation of the writes; a
      handler that leaves the encoding alone has nothing announced. */
  lemma {:induction false} PlainResponse(h: Header, ops: seq<Op>)
    ensures var w := PlainRun(Wire(h, None, []), ops);
            StandsPlain(w, Writes(ops), FinalCode(ops)) && (LeavesEncoding(ops) ==> Encoded(w, Get(h, CONTENT_ENCODING)))
  {
    hide StandsPlain, NextCode, HasCall, PerformPlain;
    if ops == [] {
      PlainStart(h);
    } else {
      var init, op := ops[..|ops| - 1], ops[|ops| - 1];
      assert ops == init + [op];
      assert op in ops;
      PlainResponse(h, init);
      OpsGrow(h, init, op);
      var w := PlainRun(Wire(h, None, []), init);
      PlainStep(w, Writes(init), FinalCode(init), op);
      if LeavesEncoding(ops) {
        assert forall o | o in init :: o in ops;
        EncodedStep(w, op, Get(h, CONTENT_ENCODING));
      }
    }
  }

  lemma EncodedStep(w: Wire, op: Op, encoding: string)
    requires Encoded(w, encoding) && (op.SetHeader? ==> op.k != CONTENT_ENCODING)
    ensures Encoded(PerformPlain(w, op), encoding)
  {
  }

  lemma PlainStart(h: Header)
    ensures StandsPlain(Wire(h, None, []), [], None)
  {
  }

  // ----- what compression leaves alone

  /** The two headers agree outside of `cut`, both the ones under construction and the ones on the wire. */
  ghost predicate HeadersAgree(w: Wire, p: Wire, cut: set<string>) {
    && w.header - cut == p.header - cut
    && (w.sent.Some? <==> p.sent.Some?)
    && (w.sent.Some? ==> w.sent.value.header - cut == p.sent.value.header - cut)
  }

  const OWN_HEADERS := {CONTENT_ENCODING, CONTENT_LENGTH}

  lemma AnnouncedAgrees(w: Wire, p: Wire, cut: set<string>)
    requires w.header - cut == p.header - cut && (cut == OWN_HEADERS || Get(w.header, CONTENT_ENCODING) != "")
    ensures Announced(w).header - cut == p.header - cut && Announced(w).sent == w.sent
  {
    if cut == OWN_HEADERS {
      assert Announced(w).header - cut == w.header - cut;
    }
  }

  lemma CallAgrees(w: Wire, p: Wire, w': Wire, p': Wire, cut: set<string>)
    requires HeadersAgree(w, p, cut)
    requires w'.header - cut == w.header - cut && p'.header == p.header
    requires w.sent.Some? ==> w'.sent == w.sent
    requires p.sent.Some? ==> p'.sent == p.sent
    requires w.sent.None? && w'.sent.Some? ==> w'.sent.value.header == w'.header
    requires p.sent.None? && p'.sent.Some? ==> p'.sent.value.header == p'.header
    requires w'.sent.Some? <==> p'.sent.Some?
    ensures HeadersAgree(w', p', cut)
  {
  }

  /** What one operation does to the header. */
  lemma PerformHeader(c: Codec, r: Response, op: Op, cut: set<string>)
    requires !op.SetHeader? && (cut == OWN_HEADERS || Get(r.wire.header, CONTENT_ENCODING) != "")
    ensures var w, w' := r.wire, Perform(c, r, op).wire;
            && w'.header - cut == w.header - cut
            && (w.sent.Some? ==> w'.sent == w.sent)
            && (w.sent.None? && w'.sent.Some? ==> w'.sent.value.header == w'.header)
            && (Get(w.header, CONTENT_ENCODING) != "" ==> w'.header == w.header)
  {
    AnnouncedAgrees(r.wire, r.wire, cut);
  }

  lemma SetHeaderAgrees(c: Codec, r: Response, p: Wire, op: Op, cut: set<string>)
    requires HeadersAgree(r.wire, p, cut) && op.SetHeader?
    ensures HeadersAgree(Perform(c, r, op).wire, PerformPlain(p, op), cut)
  {
    assert r.wire.header[op.k := op.v] - cut == (r.wire.header - cut)[op.k := op.v] - cut;
    assert p.header[op.k := op.v] - cut == (p.header - cut)[op.k := op.v] - cut;
  }

  ghost predicate KeepsEncoding(h: Header, ops: seq<Op>) {
    Get(h, CONTENT_ENCODING) != "" && LeavesEncoding(ops)
  }

  /** Side by side with the same handler and no compression. */
  lemma {:induction false} HeadersFollow(c: Codec, h: Header, ops: seq<Op>, cut: set<string>)
    requires c.Lawful() && (cut == OWN_HEADERS || KeepsEncoding(h, ops))
    ensures var r := Run(c, Response(Wire(h, None, []), [], false), ops);
            HeadersAgree(r.wire, PlainRun(Wire(h, None, []), ops), cut)
            && (KeepsEncoding(h, ops) ==> Get(r.wire.header, CONTENT_ENCODING) != "")
    decreases |ops|
  {
    hide c.Lawful, Perform, PerformPlain, HeadersAgree;
    if ops == [] {
      SameHeaders(Wire(h, None, []), cut);
    } else {
      var init, op := ops[..|ops| - 1], ops[|ops| - 1];
      assert forall o | o in init :: o in ops;
      HeadersFollow(c, h, init, cut);
      var r, p := Run(c, Response(Wire(h, None, []), [], false), init), PlainRun(Wire(h, None, []), init);
      SentAlike(c, h, ops);
      assert op in ops;
      OneOp(c, r, p, op, cut);
    }
  }

  lemma SameHeaders(w: Wire, cut: set<string>)
    ensures HeadersAgree(w, w, cut)
  {
  }

  lemma OneOp(c: Codec, r: Response, p: Wire, op: Op, cut: set<string>)
    requires HeadersAgree(r.wire, p, cut) && (cut == OWN_HEADERS || Get(r.wire.header, CONTENT_ENCODING) != "")
    requires Perform(c, r, op).wire.sent.Some? <==> PerformPlain(p, op).sent.Some?
    ensures HeadersAgree(Perform(c, r, op).wire, PerformPlain(p, op), cut)
    ensures (op.SetHeader? ==> op.k != CONTENT_ENCODING) && Get(r.wire.header, CONTENT_ENCODING) != "" ==>
              Get(Perform(c, r, op).wire.header, CONTENT_ENCODING) != ""
  {
    hide HeadersAgree;
    if op.SetHeader? {
      SetHeaderAgrees(c, r, p, op, cut);
    } else {
      PerformHeader(c, r, op, cut);
      PlainHeader(p, op);
      hide Perform, PerformPlain;
      CallAgrees(r.wire, p, Perform(c, r, op).wire, PerformPlain(p, op), cut);
    }
  }

  lemma PlainHeader(p: Wire, op: Op)
    requires !op.SetHeader?
    ensures var p' := PerformPlain(p, op);
            && p'.header == p.header && (p.sent.Some? ==> p'.sent == p.sent)
            && (p.sent.None? && p'.sent.Some? ==> p'.sent.value.header == p'.header)
  {
  }

  /** Both have sent a header as soon as the handler has settled the status. */
  lemma SentAlike(c: Codec, h: Header, ops: seq<Op>)
    requires c.Lawful()
    ensures Run(c, Response(Wire(h, None, []), [], false), ops).wire.sent.Some?
            <==> PlainRun(Wire(h, None, []), ops).sent.Some?
  {
    hide c.Lawful, Run, PlainRun, Writes;
    RunKeeps(c, h, ops);
    PlainResponse(h, ops);
  }

  /** What net/http has sent when the handler is done: 200, if nothing else. */
  function Finished(w: Wire): Wire {
    SendHeader(w, 200)
  }

  /** Behind the compressing writer every handler gets the response that it gets without: the same status, the same
      header but for the encoding and the length, and the same body, once decompressed. */
  lemma CompressionTransparent(c: Codec, h: Header, ops: seq<Op>)
    requires c.Lawful()
    ensures var w := Closed(c, Run(c, Response(Wire(h, None, []), [], false), ops));
            var p := Finished(PlainRun(Wire(h, None, []), ops));
            && w.sent.Some? && p.sent.Some? && w.sent.value.code == p.sent.value.code
            && w.sent.value.header - OWN_HEADERS == p.sent.value.header - OWN_HEADERS
            && (KeepsEncoding(h, ops) ==> w.sent.value.header == p.sent.value.header)
            && if BodyAllowed(w.sent.value.code) then c.gunzip(w.body) == Some(p.body) else w.body == p.body == []
  {
    hide c.Lawful, Run, PlainRun, HeadersAgree, Closed, Writes;
    ResponseDecompresses(c, h, ops);
    PlainResponse(h, ops);
    HeadersFollow(c, h, ops, OWN_HEADERS);
    var r, p := Run(c, Response(Wire(h, None, []), [], false), ops), PlainRun(Wire(h, None, []), ops);
    CloseAgrees(c, r, p, OWN_HEADERS);
    if KeepsEncoding(h, ops) {
      HeadersFollow(c, h, ops, {});
      CloseAgrees(c, r, p, {});
      NothingCut(Closed(c, r).sent.value.header, Finished(p).sent.value.header);
    }
    FinishedBody(p);
    FinishedCode(p);
    NothingFlat(Writes(ops), p, FinalCode(ops));
  }

  lemma NothingCut(a: Header, b: Header)
    requires a - {} == b - {}
    ensures a == b
  {
    assert a - {} == a && b - {} == b;
  }

  lemma CloseAgrees(c: Codec, r: Response, p: Wire, cut: set<string>)
    requires HeadersAgree(r.wire, p, cut) && Closed(c, r).sent.Some?
    ensures Finished(p).sent.Some? && Closed(c, r).sent.value.header - cut == Finished(p).sent.value.header - cut
  {
  }

  lemma FinishedBody(p: Wire)
    ensures Finished(p).body == p.body
  {
  }

  lemma FinishedCode(p: Wire)
    ensures Finished(p).sent == Some(p.sent.GetOrElse(Sent(200, p.header)))
  {
  }

  lemma NothingFlat(writes: seq<Bytes>, p: Wire, code: Option<nat>)
    requires StandsPlain(p, writes, code)
    ensures p.body == if BodyAllowed(code.GetOrElse(200)) then Flat(writes) else []
    ensures p.sent.Some? <==> code.Some?
    ensures p.sent.Some? ==> p.sent.value.code == code.value
  {
  }

  ghost predicate LeavesLength(ops: seq<Op>) {
    forall op | op in ops && op.SetHeader? :: op.k != CONTENT_LENGTH
  }

  /** With gzip announced by the writer the length that stood there before is gone. */
  lemma {:induction false} LengthDropped(c: Codec, h: Header, ops: seq<Op>)
    requires Get(h, CONTENT_ENCODING) == "" && LeavesEncoding(ops) && LeavesLength(ops)
    ensures var r := Run(c, Response(Wire(h, None, []), [], false), ops);
            && (r.wroteHeader <==> HasCall(ops))
            && (HasCall(ops) ==> CONTENT_LENGTH !in r.wire.header)
            && (!HasCall(ops) ==> Get(r.wire.header, CONTENT_ENCODING) == "" && r.wire.sent.None?)
            && (r.wire.sent.Some? ==> CONTENT_LENGTH !in r.wire.sent.value.header)
    decreases |ops|
  {
    if ops != [] {
      var init, op := ops[..|ops| - 1], ops[|ops| - 1];
      assert ops == init + [op];
      assert forall o :: o in ops <==> o in init || o == op;
      LengthDropped(c, h, init);
      hide Passed;
      OneDrops(c, Run(c, Response(Wire(h, None, []), [], false), init), op, HasCall(init));
    }
  }

  lemma OneDrops(c: Codec, r: Response, op: Op, called: bool)
    requires op.SetHeader? ==> op.k != CONTENT_ENCODING && op.k != CONTENT_LENGTH
    requires r.wroteHeader <==> called
    requires called ==> CONTENT_LENGTH !in r.wire.header
    requires !called ==> Get(r.wire.header, CONTENT_ENCODING) == "" && r.wire.sent.None?
    requires r.wire.sent.Some? ==> CONTENT_LENGTH !in r.wire.sent.value.header
    ensures var r', now := Perform(c, r, op), called || !op.SetHeader?;
            && (r'.wroteHeader <==> now)
            && (now ==> CONTENT_LENGTH !in r'.wire.header)
            && (!now ==> Get(r'.wire.header, CONTENT_ENCODING) == "" && r'.wire.sent.None?)
            && (r'.wire.sent.Some? ==> CONTENT_LENGTH !in r'.wire.sent.value.header)
  {
  }
}

/** What a client is told of a batch and what the store was asked, through all the layers of the server
    (internal/monserv/middlewares/middlewares.go, internal/monserv/handlers/handlers.go). */
module Requests {
  import opened Wrappers
  import opened Mondata
  import opened Envelope
  import Handlers

  /** What the batch handler meets; `json` is whether the request announces JSON, `parse` is json.Unmarshal. */
  function BodyOf(json: bool, parse: Bytes -> Option<seq<Metrics>>, body: Stream): Handlers.Body {
    if !json then Handlers.NotJSON
    else if body.broken then Handlers.Unreadable
    else match parse(body.bytes) case None => Handlers.Unparsable case Some(recs) => Handlers.Records(recs)
  }

  /** The first status that was written, and the calls to the store that took effect. */
  datatype Served = Served(status: Handlers.Outcome, calls: seq<Call>)

  function ServeBatch(c: Crypto, server: Server, req: Request, json: bool, parse: Bytes -> Option<seq<Metrics>>,
                      failures: seq<bool>): Served
  {
    match Serve(c, UpdateChain(server), req, false)
    case Answered(code) => Served(Handlers.Status(code), [])
    case Panicked => Served(Handlers.Panicked, [])
    case Handled(body, errored) =>
      var (outcome, calls) := Handlers.BatchAnswer(BodyOf(json, parse, body), failures);
      Served(if errored && outcome != Handlers.Panicked then Handlers.SERVER_ERROR else outcome, calls)
  }

  /** The records of a JSON batch of which each non-empty map was applied, once. */
  ghost predicate Applied(served: Served, parse: Bytes -> Option<seq<Metrics>>, message: Bytes) {
    match parse(message)
    case None => false
    case Some(recs) =>
      match Handlers.Fold(recs)
      case None => false
      case Some(maps) => served.calls != [] && served.calls == Handlers.Wanted(maps)
  }

  /** The body is a batch in which a record lacks the value of its type. */
  ghost predicate LacksValue(parse: Bytes -> Option<seq<Metrics>>, body: Stream) {
    !body.broken && parse(body.bytes).Some? && !Handlers.WellFormed(parse(body.bytes).value)
  }

  /** What the client is told and what the store was asked, for any request: a middleware that answers does so alone; the
      handler answers 400 to what is no JSON or does not parse and 500 to what it cannot read, without asking for anything;
      and whatever it would answer, a 500 that went before stays. */
  lemma HandledAnswer(c: Crypto, server: Server, req: Request, json: bool, parse: Bytes -> Option<seq<Metrics>>,
                      failures: seq<bool>)
    requires Serve(c, UpdateChain(server), req, false).Handled?
    ensures var fate := Serve(c, UpdateChain(server), req, false);
            var served := ServeBatch(c, server, req, json, parse, failures);
            && (fate.errored ==> served.status == Handlers.Status(500) || served.status == Handlers.Panicked)
            && (!json ==> served == Served(Handlers.Status(if fate.errored then 500 else 400), []))
            && (json && fate.body.broken ==> served == Served(Handlers.Status(500), []))
            && (json && !fate.body.broken && parse(fate.body.bytes).None? ==>
                  served == Served(Handlers.Status(if fate.errored then 500 else 400), []))
            && (json && LacksValue(parse, fate.body) ==> served == Served(Handlers.Panicked, []))
            && (served.status == Handlers.OK ==>
                  !fate.errored && !fate.body.broken && Applied(served, parse, fate.body.bytes))
            && (json && !fate.body.broken && Applied(served, parse, fate.body.bytes) ==>
                  served.status == if fate.errored then Handlers.SERVER_ERROR else Handlers.OK)
            && (served.calls != [] ==> json && !fate.body.broken)
  {
    hide Serve, UpdateChain, Handlers.BatchAnswer, Handlers.Fold, Handlers.Wanted;
    var fate := Serve(c, UpdateChain(server), req, false);
    Handlers.StatusAgreesWithState(BodyOf(json, parse, fate.body), failures);
    NothingAsked(failures);
  }

  lemma OthersAnswer(c: Crypto, server: Server, req: Request, json: bool, parse: Bytes -> Option<seq<Metrics>>,
                     failures: seq<bool>)
    ensures var fate := Serve(c, UpdateChain(server), req, false);
            var served := ServeBatch(c, server, req, json, parse, failures);
            && (fate.Answered? ==> served == Served(Handlers.Status(fate.code), []))
            && (fate.Panicked? ==> served == Served(Handlers.Panicked, []))
  {
    hide Serve, UpdateChain;
  }

  lemma NothingAsked(failures: seq<bool>)
    ensures Handlers.BatchAnswer(Handlers.NotJSON, failures).1 == []
    ensures Handlers.BatchAnswer(Handlers.Unreadable, failures).1 == []
    ensures Handlers.BatchAnswer(Handlers.Unparsable, failures).1 == []
  {
  }

  /** A 200 can be trusted whatever the request looks like. */
  lemma OkMeansApplied(c: Crypto, server: Server, req: Request, json: bool, parse: Bytes -> Option<seq<Metrics>>,
                       failures: seq<bool>)
    requires ServeBatch(c, server, req, json, parse, failures).status == Handlers.OK
    ensures var fate := Serve(c, UpdateChain(server), req, false);
            fate.Handled? && !fate.errored && !fate.body.broken
            && Applied(ServeBatch(c, server, req, json, parse, failures), parse, fate.body.bytes)
  {
    hide Handlers.BatchAnswer, Applied;
    var fate := Serve(c, UpdateChain(server), req, false);
    AnswersNotOk(c, server, req);
    if fate.Handled? {
      HandledAnswer(c, server, req, json, parse, failures);
    }
  }

  lemma AnswersNotOk(c: Crypto, server: Server, req: Request)
    ensures var fate := Serve(c, UpdateChain(server), req, false);
            fate.Answered? ==> fate.code == 400 || fate.code == 500
  {
    hide Serve, UpdateChain, HasGzip, DecryptMsg;
    ServeAny(c, server, req);
  }

  /** What the decrypter made of a body that it could not read to its end. */
  function BrokenMessage(c: Crypto, server: Server, req: Request): Option<Bytes> {
    var reaching := Reaching(c, server, req);
    if server.priv.None? || reaching.Err? || !reaching.value.broken then None
    else match DecryptMsg(c, server.priv.value, reaching.value.bytes) case Plain(message) => Some(message) case _ => None
  }

  /** A 500 cannot: under it a whole batch was applied exactly when the server decrypts, the body could not be read to
      its end, and what was read decrypts to a batch that the handler applies. */
  lemma AppliedUnder500Iff(c: Crypto, server: Server, req: Request, json: bool,
                           parse: Bytes -> Option<seq<Metrics>>, failures: seq<bool>)
    requires parse([]) == None
    ensures var fate := Serve(c, UpdateChain(server), req, false);
            var served := ServeBatch(c, server, req, json, parse, failures);
            (served.status == Handlers.SERVER_ERROR && fate.Handled? && Applied(served, parse, fate.body.bytes)) <==>
            (BrokenMessage(c, server, req).Some?
             && Handlers.BatchAnswer(BodyOf(json, parse, Intact(BrokenMessage(c, server, req).value)), failures).0
                == Handlers.OK)
  {
    hide Handlers.BatchAnswer, Applied, Serve, UpdateChain, DecryptMsg, Reaching;
    var fate := Serve(c, UpdateChain(server), req, false);
    var broken := BrokenMessage(c, server, req);
    if broken.Some? {
      HandledAfterErrorIff(c, server, req, Intact(broken.value));
      HandledAnswer(c, server, req, json, parse, failures);
      AnswerOkIff(c, server, req, json, parse, failures);
      AppliedAsked(ServeBatch(c, server, req, json, parse, failures), parse, broken.value);
    } else if fate.Handled? {
      HandledAfterErrorIff(c, server, req, fate.body);
      HandledAnswer(c, server, req, json, parse, failures);
      NothingApplied(ServeBatch(c, server, req, json, parse, failures), parse);
      AppliedAsked(ServeBatch(c, server, req, json, parse, failures), parse, fate.body.bytes);
    }
  }

  lemma NothingApplied(served: Served, parse: Bytes -> Option<seq<Metrics>>)
    requires parse([]) == None
    ensures !Applied(served, parse, [])
  {
  }

  lemma AppliedAsked(served: Served, parse: Bytes -> Option<seq<Metrics>>, message: Bytes)
    ensures Applied(served, parse, message) ==> served.calls != []
  {
  }

  /** The handler would have said 200 exactly when it applied everything. */
  lemma AnswerOkIff(c: Crypto, server: Server, req: Request, json: bool, parse: Bytes -> Option<seq<Metrics>>,
                    failures: seq<bool>)
    requires Serve(c, UpdateChain(server), req, false).Handled?
    ensures var fate := Serve(c, UpdateChain(server), req, false);
            Handlers.BatchAnswer(BodyOf(json, parse, fate.body), failures).0 == Handlers.OK <==>
            json && !fate.body.broken
            && Applied(ServeBatch(c, server, req, json, parse, failures), parse, fate.body.bytes)
  {
    hide Serve, UpdateChain, Handlers.BatchAnswer, Handlers.Fold, Handlers.Wanted;
    var fate := Serve(c, UpdateChain(server), req, false);
    Handlers.StatusAgreesWithState(BodyOf(json, parse, fate.body), failures);
    NothingAsked(failures);
  }

  /** For instance with any lawful ciphers: a batch encrypted for the server, unsigned, whose transport or gzip stream
      breaks after its last byte. */
  lemma BatchAppliedUnder500(c: Crypto, pub: PublicKey, server: Server, p: Bytes, e: Entropy, req: Request,
                             parse: Bytes -> Option<seq<Metrics>>, recs: seq<Metrics>)
    requires c.Lawful() && e.Valid() && server.priv.Some? && c.Pair(pub, server.priv.value)
    requires req.hashHeader == "" && Unzipped(c, req) == Some(Stream(Encrypted(c, pub, p, e), true))
    requires parse(p) == Some(recs)
    requires Handlers.Fold(recs).Some? && Handlers.Wanted(Handlers.Fold(recs).value) != []
    ensures ServeBatch(c, server, req, true, parse, [])
            == Served(Handlers.SERVER_ERROR, Handlers.Wanted(Handlers.Fold(recs).value))
  {
    hide Serve, UpdateChain, Handlers.Fold, Handlers.Wanted, DecryptMsg, Encrypted, Unzipped;
    BrokenMessageHandledAfterError(c, pub, server, p, e, req);
    Handlers.AllSucceed(|Handlers.Wanted(Handlers.Fold(recs).value)|);
  }
}

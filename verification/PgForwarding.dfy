/** Which of a PostgreSQL client's messages reach the server, told from what it sends and the
    replies alone, and everything it reads on a connection. */
module PgForwarding {
  import opened ByteStrings
  import opened Http
  import opened PgProxy
  import opened PgConversation
  import Parser = PgParser

  // ---------- the messages to be forwarded ----------

  datatype Sent = Sent(kind: byte, payload: bytes)

  /** The messages before the first Terminate or the first that cannot be encoded, without those
      that encode to nothing. */
  function Forwardable(incoming: seq<Incoming>): seq<Sent> {
    if incoming == [] then []
    else match incoming[0]
      case Unencodable => []
      case Silent => Forwardable(incoming[1..])
      case Message(kind, payload) =>
        if kind == 0x58 then [] else [Sent(kind, payload)] + Forwardable(incoming[1..])
  }

  function SentOf(xs: seq<Exchange>): (r: seq<Sent>)
    ensures |r| == |xs| && forall i :: 0 <= i < |r| ==> r[i] == Sent(xs[i].kind, xs[i].raw)
  {
    seq(|xs|, i requires 0 <= i < |xs| => Sent(xs[i].kind, xs[i].raw))
  }

  /** The outcome of the k-th query request. */
  function ReplyAt(replies: seq<HttpReply>, k: nat): HttpReply {
    if k < |replies| then replies[k] else HttpFailed([])
  }

  /** The loop ends with message `k`: the request failed, its reply could not be decoded, or a batch
      without an error text could not be flushed, as `k` flushes or fewer succeed. */
  predicate EndsWith(replies: seq<HttpReply>, flushes: Option<nat>, k: nat) {
    match ReplyAt(replies, k)
    case Replied(result) => result.error == [] && flushes.Some? && flushes.value <= k
    case _ => true
  }

  lemma EndsWithShifts(replies: seq<HttpReply>, flushes: Option<nat>, k: nat)
    ensures ReplyAt(Rest(replies), k) == ReplyAt(replies, k + 1)
    ensures EndsWith(Rest(replies), Spend(flushes), k) <==> EndsWith(replies, flushes, k + 1)
  {
  }

  lemma GoesOnMeans(x: Exchange, replies: seq<HttpReply>, flushes: Option<nat>)
    requires x.outcome == Head(replies)
    ensures GoesOn(x, flushes) <==> !EndsWith(replies, flushes, 0)
    ensures GoesOn(x, flushes) ==> Answered(x)
    ensures Head(replies) == ReplyAt(replies, 0)
  {
  }

  /** What is forwarded is the front of the messages to be forwarded, each with its own reply; no
      message but the last ends the loop, and if messages are left the last one did. */
  ghost predicate IsForwarded(xs: seq<Exchange>, sent: seq<Sent>, replies: seq<HttpReply>, flushes: Option<nat>) {
    && |xs| <= |sent| && SentOf(xs) == sent[..|xs|]
    && (forall k :: 0 <= k < |xs| ==> xs[k].outcome == ReplyAt(replies, k))
    && (forall k :: 0 <= k < |xs| ==> xs[k].sql == Parser.Extracted(xs[k].kind, xs[k].raw))
    && (forall k :: 0 <= k < |xs| - 1 ==> !EndsWith(replies, flushes, k))
    && (|xs| < |sent| ==> |xs| > 0 && EndsWith(replies, flushes, |xs| - 1))
  }

  lemma ForwardedStep(x: Exchange, more: seq<Exchange>, sent: seq<Sent>, replies: seq<HttpReply>, flushes: Option<nat>)
    requires IsForwarded(more, sent, Rest(replies), Spend(flushes))
    requires x.outcome == ReplyAt(replies, 0) && x.sql == Parser.Extracted(x.kind, x.raw)
    requires !EndsWith(replies, flushes, 0)
    ensures IsForwarded([x] + more, [Sent(x.kind, x.raw)] + sent, replies, flushes)
  {
    hide EndsWith, Rest, Spend, ReplyAt, Parser.Extracted;
    var xs, all := [x] + more, [Sent(x.kind, x.raw)] + sent;
    assert SentOf(xs) == [Sent(x.kind, x.raw)] + SentOf(more);
    assert all[..|xs|] == [Sent(x.kind, x.raw)] + sent[..|more|];
    forall k | 0 <= k < |xs|
      ensures xs[k].outcome == ReplyAt(replies, k) && xs[k].sql == Parser.Extracted(xs[k].kind, xs[k].raw)
      ensures k < |xs| - 1 ==> !EndsWith(replies, flushes, k)
    {
      if k > 0 {
        EndsWithShifts(replies, flushes, k - 1);
        assert xs[k] == more[k - 1];
      }
    }
    if |more| < |sent| {
      EndsWithShifts(replies, flushes, |more| - 1);
    }
  }

  lemma {:induction false} ExchangesForward(incoming: seq<Incoming>, replies: seq<HttpReply>, flushes: Option<nat>)
    ensures IsForwarded(Exchanges(incoming, replies, flushes), Forwardable(incoming), replies, flushes)
    decreases |incoming|
  {
    hide Parser.Extracted, GoesOn, EndsWith;
    if incoming != [] {
      match incoming[0]
      case Unencodable =>
      case Silent =>
        ExchangesForward(incoming[1..], replies, flushes);
      case Message(kind, payload) =>
        if kind != 0x58 {
          var x := Exchange(kind, Parser.Extracted(kind, payload), payload, Head(replies));
          GoesOnMeans(x, replies, flushes);
          if GoesOn(x, flushes) {
            ExchangesForward(incoming[1..], Rest(replies), Spend(flushes));
            hide IsForwarded;
            ForwardedStep(x, Exchanges(incoming[1..], Rest(replies), Spend(flushes)), Forwardable(incoming[1..]),
                          replies, flushes);
          }
        }
    }
  }

  /** The exact condition: every message to be forwarded is, if and only if none but the last meets
      a failed request, an undecodable reply, or a failed flush of a batch without an error text.
      A reply with an error text does not end the loop. */
  lemma AllForwardedExactlyWhen(incoming: seq<Incoming>, replies: seq<HttpReply>, flushes: Option<nat>)
    ensures var xs := Exchanges(incoming, replies, flushes);
            var sent := Forwardable(incoming);
            && |xs| <= |sent| && SentOf(xs) == sent[..|xs|]
            && (SentOf(xs) == sent <==> forall k :: 0 <= k < |sent| - 1 ==> !EndsWith(replies, flushes, k))
  {
    hide EndsWith, Exchanges, Forwardable;
    ExchangesForward(incoming, replies, flushes);
    var xs, sent := Exchanges(incoming, replies, flushes), Forwardable(incoming);
    if |xs| == |sent| {
      assert sent[..|xs|] == sent;
    } else {
      assert EndsWith(replies, flushes, |xs| - 1);
    }
  }

  /** So with every reply a decodable one, an error text or not, and no flush that fails, all are. */
  lemma AllRepliedAllForwarded(incoming: seq<Incoming>, replies: seq<HttpReply>)
    requires forall k :: 0 <= k < |Forwardable(incoming)| - 1 ==> ReplyAt(replies, k).Replied?
    ensures SentOf(Exchanges(incoming, replies, None)) == Forwardable(incoming)
  {
    hide Exchanges, Forwardable;
    AllForwardedExactlyWhen(incoming, replies, None);
  }

  // ---------- the batches that get through ----------

  /** A connection that breaks after `n` flushes delivers the batches of the first `n` messages. */
  lemma {:induction false} FirstBatchesGetThrough(xs: seq<Exchange>, n: nat)
    requires forall k :: 0 <= k < |xs| - 1 ==> Answered(xs[k])
    ensures Delivered(xs, Some(n)) == Delivered(if n < |xs| then xs[..n] else xs, None)
  {
    hide Batch, Answered;
    if xs != [] {
      var more := xs[1..];
      if n == 0 {
        NoneGetThrough(xs);
      } else {
        if |xs| == 1 {
          assert more == [];
        } else {
          FirstBatchesGetThrough(more, n - 1);
        }
        if n < |xs| {
          assert xs[..n][1..] == more[..n - 1];
        }
      }
    }
  }

  lemma {:induction false} NoneGetThrough(xs: seq<Exchange>)
    ensures Delivered(xs, Some(0)) == []
  {
    if xs != [] {
      NoneGetThrough(xs[1..]);
    }
  }

  // ---------- start-up ----------

  datatype Parameter = Parameter(name: bytes, value: bytes)

  /** What a client reads before its first message: authentication is over, some parameters, the key
      for cancelling, and one ReadyForQuery; and the messages after it. */
  function ReadStartup(ms: seq<BackendMessage>): Option<(seq<Parameter>, seq<BackendMessage>)> {
    if ms == [] || ms[0] != AuthenticationOk then None else ReadParameters(ms[1..])
  }

  function ReadParameters(ms: seq<BackendMessage>): Option<(seq<Parameter>, seq<BackendMessage>)> {
    if ms == [] then None
    else match ms[0]
      case ParameterStatus(name, value) =>
        var (more, rest) :- ReadParameters(ms[1..]);
        Some(([Parameter(name, value)] + more, rest))
      case BackendKeyData => if |ms| >= 2 && ms[1] == ReadyForQuery then Some(([], ms[2..])) else None
      case _ => None
  }

  const STRINGS_CONFORM: Parameter := Parameter(Ascii("standard_conforming_strings"), Ascii("on"))

  /** What the proxy says of the server. */
  function Announced(): seq<Parameter> {
    [Parameter(Ascii("server_version"), Ascii("14.0")), Parameter(Ascii("server_encoding"), Ascii("UTF8")),
     Parameter(Ascii("client_encoding"), Ascii("UTF8")), Parameter(Ascii("DateStyle"), Ascii("ISO, MDY")),
     STRINGS_CONFORM]
  }

  lemma OneParameter(name: bytes, value: bytes, ms: seq<BackendMessage>)
    ensures ReadParameters([ParameterStatus(name, value)] + ms) ==
            match ReadParameters(ms)
            case None => None
            case Some((more, rest)) => Some(([Parameter(name, value)] + more, rest))
  {
    assert ([ParameterStatus(name, value)] + ms)[1..] == ms;
  }

  lemma StartupReads(tail: seq<BackendMessage>)
    ensures ReadStartup(Greeting() + tail) == Some((Announced(), tail))
  {
    hide ReadParameters, Ascii;
    var m5 := [BackendKeyData, ReadyForQuery] + tail;
    KeyAndReady(tail);
    var m4 := [ParameterStatus(CONFORMING_STRINGS, ON)] + m5;
    var m3 := [ParameterStatus(DATE_STYLE, ISO_MDY)] + m4;
    var m2 := [ParameterStatus(CLIENT_ENCODING, UTF8)] + m3;
    var m1 := [ParameterStatus(SERVER_ENCODING, UTF8)] + m2;
    var m0 := [ParameterStatus(SERVER_VERSION, VERSION_14)] + m1;
    OneParameter(CONFORMING_STRINGS, ON, m5);
    OneParameter(DATE_STYLE, ISO_MDY, m4);
    OneParameter(CLIENT_ENCODING, UTF8, m3);
    OneParameter(SERVER_ENCODING, UTF8, m2);
    OneParameter(SERVER_VERSION, VERSION_14, m1);
    assert (Greeting() + tail)[1..] == m0 && (Greeting() + tail)[0] == AuthenticationOk;
    var (p0, p1) := (Parameter(SERVER_VERSION, VERSION_14), Parameter(SERVER_ENCODING, UTF8));
    var (p2, p3) := (Parameter(CLIENT_ENCODING, UTF8), Parameter(DATE_STYLE, ISO_MDY));
    assert [p0] + ([p1] + ([p2] + ([p3] + ([Parameter(CONFORMING_STRINGS, ON)] + [])))) == Announced();
  }

  lemma KeyAndReady(tail: seq<BackendMessage>)
    ensures ReadParameters([BackendKeyData, ReadyForQuery] + tail) == Some(([], tail))
  {
    assert ([BackendKeyData, ReadyForQuery] + tail)[2..] == tail;
  }

  /** Everything a client reads on a connection that does not break: nothing without a session; else
      the start-up, with these parameters, and then one batch per answered message, in order, each
      with the meant content, and nothing else. */
  lemma WholeConnection(s: State, startup: Option<bytes>, session: Option<SessionId>)
    requires s.flushes == None && s.delivered == []
    ensures var (end, ending) := Connection(s, startup, session);
            && (ending == NoStartup <==> startup == None)
            && (ending == Refused <==> startup.Some? && session == None)
            && (ending.Closed? <==> startup.Some? && session.Some?) && (ending.Closed? ==> session == Some(ending.id))
            && (!ending.Closed? ==> end.delivered == [])
            && (ending.Closed? ==>
                  var begun := ReadStartup(end.delivered);
                  var answered := AnsweredOnes(Exchanges(s.incoming, s.replies, None));
                  && begun.Some? && begun.value.0 == Announced()
                  && ReadSession(Kinds(answered), begun.value.1) == Some(AllMeant(answered)))
  {
    hide Messages, Greeting, Exchanges, ReadStartup, Announced, ReadSession;
    if startup.Some? && session.Some? {
      var s1 := s.(calls := s.calls + [Open(startup.value)]);
      assert [] + Greeting() == Greeting();
      MessageLoopIs(Deliver(s1, Some(Greeting())), session.value);
      var xs := Exchanges(s.incoming, s.replies, None);
      StartupReads(Delivered(xs, None));
      DeliveredReads(xs);
    }
  }
}

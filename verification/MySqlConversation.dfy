/** Whole MySQL connections: what the client reads, what the server is asked, and when a
    session is closed. */
module MySqlConversation {
  import opened ByteStrings
  import opened Wire
  import opened Packets
  import opened Http
  import opened MySqlProxy
  import opened MySqlClient
  import opened MySqlAnswers
  import LenEnc
  import Handshake

  // ---------- one command ----------

  /** What the client is meant to learn from the answer to a command. */
  function Meant(command: bytes, outcome: HttpReply): MySqlClient.Answer
    requires command != []
  {
    var cmd, data := command[0], command[1..];
    if cmd == 0x03 then
      match outcome
      case Replied(result) =>
        if result.error != [] then Error(1064, STATE_SYNTAX, result.error) else Shown(result, data)
      case _ => Error(2006, STATE_GENERAL, GONE_AWAY)
    else if cmd == 0x0E || cmd == 0x02 then Done(0, 0, 2, 0, [])
    else if cmd in {0x16, 0x17, 0x19, 0x1A, 0x1C} then Error(1295, STATE_GENERAL, NotSupportedText())
    else Error(1047, STATE_LINK, UnknownCommand(cmd))
  }

  // ---------- the texts of the errors ----------

  /** A two-digit lower-case hexadecimal number. */
  function ReadHex(b: bytes): Option<nat> {
    if |b| != 2 then None
    else
      var high :- HexValue(b[0]);
      var low :- HexValue(b[1]);
      Some(16 * high + low)
  }

  function HexValue(b: byte): Option<nat> {
    if 0x30 <= b <= 0x39 then Some(b - 0x30) else if 0x61 <= b <= 0x66 then Some(b - 0x61 + 10) else None
  }

  lemma QueryErrorsAre(command: bytes, outcome: HttpReply)
    requires command != [] && command[0] == 0x03
    ensures outcome.HttpFailed? ==>
              Meant(command, outcome) == Error(2006, Ascii("HY000"), Ascii("MySQL server has gone away"))
    ensures outcome.Replied? && outcome.response.error != [] ==>
              Meant(command, outcome) == Error(1064, Ascii("42000"), outcome.response.error)
  {
  }

  const UNSUPPORTED: bytes := Ascii("This command is not supported ") + Ascii("in the prepared statement protocol")

  /** A prepared-statement command is refused, with this text. */
  lemma StatementErrorIs(command: bytes, outcome: HttpReply)
    requires command != [] && command[0] in {0x16, 0x17, 0x19, 0x1A, 0x1C}
    ensures Meant(command, outcome) == Error(1295, Ascii("HY000"), UNSUPPORTED)
  {
    hide Ascii;
  }

  /** Any other command is unknown; the text shows its byte in hexadecimal. */
  lemma UnknownErrorIs(command: bytes, outcome: HttpReply)
    requires command != [] && command[0] !in {0x02, 0x03, 0x0E, 0x16, 0x17, 0x19, 0x1A, 0x1C}
    ensures var answer := Meant(command, outcome);
            && answer.Error? && answer.code == 1047 && answer.state == Ascii("08S01")
            && |answer.message| == 21 && answer.message[..19] == Ascii("Unknown command: 0x")
            && ReadHex(answer.message[19..]) == Some(command[0])
  {
    var cmd := command[0];
    var text := UnknownCommand(cmd);
    assert text[..19] == Ascii("Unknown command: 0x");
    assert text[19..] == [HexDigit(cmd / 16), HexDigit(cmd % 16)];
    hide Ascii;
  }

  /** Replies as the pools build them. */
  predicate Sane(outcome: HttpReply) {
    outcome.Replied? ==> |outcome.response.columns| < TWO_64 && WellFormed(outcome.response)
  }

  /** A reply could be decoded, and every packet of the answer fits. */
  predicate Answerable(command: bytes, outcome: HttpReply)
    requires command != []
  {
    (command[0] == COM_QUERY ==> !outcome.BadJson?) && AllFitIn(AnswerPackets(command, outcome))
  }

  lemma OnePacketAnswer(p: bytes, a: MySqlClient.Answer, no: byte, tail: bytes)
    requires Fits(p) && p != []
    requires (p[0] == 0x00 && DecodeOk(p) == Some(a)) || (p[0] == 0xFF && DecodeErr(p) == Some(a))
    ensures ReadAnswer(Burst([p], no) + tail, no) == Some((a, tail, Next(no)))
  {
    hide NextPacket, Burst, DecodeOk, DecodeErr;
    NextPacketOfBurst(p, [], no, tail);
    assert [p] + [] == [p];
    EmptyBurst(Next(no));
    assert [] + tail == tail;
  }

  lemma ErrAnswer(code: uint16, state: bytes, message: bytes, no: byte, tail: bytes)
    requires |state| == 5 && Fits(ErrPacket(code, state, message))
    ensures ReadAnswer(Burst([ErrPacket(code, state, message)], no) + tail, no) ==
            Some((Error(code, state, message), tail, Next(no)))
  {
    ErrRoundTrip(code, state, message);
    assert PadState(state) == state;
    assert ErrPacket(code, state, message)[0] == 0xFF;
    hide ErrPacket, ReadAnswer, Burst;
    OnePacketAnswer(ErrPacket(code, state, message), Error(code, state, message), no, tail);
  }

  lemma PlainOkAnswer(no: byte, tail: bytes)
    ensures Fits(PlainOk())
    ensures ReadAnswer(Burst([PlainOk()], no) + tail, no) == Some((Done(0, 0, AUTOCOMMIT, 0, []), tail, Next(no)))
  {
    OkRoundTrip(0, 0, AUTOCOMMIT, 0, []);
    assert PlainOk()[0] == 0x00;
    hide ReadAnswer, Burst;
    OnePacketAnswer(PlainOk(), Done(0, 0, AUTOCOMMIT, 0, []), no, tail);
  }

  /** One decoder recovers every kind of answer: OK, error or table, with anything after it.
      It ends right after the answer, whose packets are numbered `no`, `no` + 1, ... */
  lemma AnswerRoundTrip(command: bytes, outcome: HttpReply, no: byte, tail: bytes)
    requires command != [] && Sane(outcome) && Answerable(command, outcome)
    ensures var packets := AnswerPackets(command, outcome);
            ReadAnswer(Burst(packets, no) + tail, no) ==
            Some((Meant(command, outcome), tail, Shift(no, |packets|)))
  {
    hide ReadAnswer, Burst, ErrPacket, ResultSet, Shown, UnknownCommand, NotSupportedText, PlainOk, WellFormed;
    var cmd := command[0];
    var packets := AnswerPackets(command, outcome);
    if cmd == COM_QUERY {
      match outcome
      case HttpFailed(_) =>
        ErrAnswer(2006, STATE_GENERAL, GONE_AWAY, no, tail);
      case Replied(result) =>
        if result.error != [] {
          assert Fits(packets[0]);
          ErrAnswer(1064, STATE_SYNTAX, result.error, no, tail);
        } else if result.columns == [] {
          DoneRoundTrip(result, command[1..], no, tail);
          OneResultPacket(result, command[1..]);
        } else {
          TableRoundTrip(result, command[1..], no, tail);
        }
    } else if cmd == COM_PING || cmd == COM_INIT_DB {
      PlainOkAnswer(no, tail);
    } else if IsStatementCommand(cmd) {
      ErrAnswer(1295, STATE_GENERAL, NotSupportedText(), no, tail);
    } else {
      ErrAnswer(1047, STATE_LINK, UnknownCommand(cmd), no, tail);
    }
  }

  lemma OneResultPacket(result: QueryResponse, sql: bytes)
    requires result.columns == []
    ensures |ResultSet(result, sql)| == 1
  {
  }

  /** The exact condition: the client gets the meant answer, complete, and stops right after it,
      whatever comes next, if and only if the reply could be decoded and all packets fit.
      Otherwise it reads no answer, unless it takes some of what comes next for it. */
  lemma AnsweredExactly(command: bytes, outcome: HttpReply, no: byte, tail: bytes)
    requires command != [] && Sane(outcome)
    ensures var packets := AnswerPackets(command, outcome);
            var read := ReadAnswer(Burst(Sendable(packets), no) + tail, no);
            && (Answerable(command, outcome) <==> read == Some((Meant(command, outcome), tail, Shift(no, |packets|))))
            && (!Answerable(command, outcome) ==> EatsInto(read, tail))
  {
    hide ReadAnswer, Burst, ErrPacket, ResultSet, Shown, UnknownCommand, NotSupportedText, PlainOk, WellFormed;
    var packets := AnswerPackets(command, outcome);
    if Answerable(command, outcome) {
      AnswerRoundTrip(command, outcome, no, tail);
    } else if command[0] == COM_QUERY && outcome.Replied? && outcome.response.error == [] {
      if outcome.response.columns == [] {
        DoneRoundTrip(outcome.response, command[1..], no, []);
      }
      CutOffIsNoAnswer(outcome.response, command[1..], no, tail);
    } else {
      SinglesFit(command, outcome);
      assert Sendable(packets) == [];
      EmptyBurst(no);
      assert [] + tail == tail;
      ReadAnswerShrinks(tail, no);
    }
  }

  /** Of the one-packet answers only the error text of a reply can be too long. */
  lemma SinglesFit(command: bytes, outcome: HttpReply)
    requires command != [] && !Answerable(command, outcome)
    requires !(command[0] == COM_QUERY && outcome.Replied? && outcome.response.error == [])
    ensures command[0] == COM_QUERY
    ensures outcome.BadJson? ==> AnswerPackets(command, outcome) == []
    ensures !outcome.BadJson? ==>
              |AnswerPackets(command, outcome)| == 1 && !Fits(AnswerPackets(command, outcome)[0])
  {
    PlainOkAnswer(0, []);
    hide PlainOk;
  }

  // ---------- the commands of a connection ----------

  /** The commands that get an answer: the non-empty ones before the first Quit. */
  function Served(ps: seq<Packet>): (r: seq<Packet>)
    ensures forall p <- r :: p.payload != []
  {
    if ps == [] then []
    else if ps[0].payload == [] then Served(ps[1..])
    else if ps[0].payload[0] == 0x01 then []
    else [ps[0]] + Served(ps[1..])
  }

  predicate IsQuery(p: Packet) {
    p.payload != [] && p.payload[0] == 0x03
  }

  /** The SQL texts of the queries among some commands, in order. */
  function QueryTexts(ps: seq<Packet>): seq<bytes> {
    if ps == [] then []
    else if IsQuery(ps[0]) then [ps[0].payload[1..]] + QueryTexts(ps[1..])
    else QueryTexts(ps[1..])
  }

  function QueryCalls(id: SessionId, texts: seq<bytes>): (r: seq<HttpCall>)
    ensures |r| == |texts| && forall i :: 0 <= i < |r| ==> r[i] == Query(id, 0x03, texts[i], [])
  {
    seq(|texts|, i requires 0 <= i < |texts| => Query(id, 0x03, texts[i], []))
  }

  /** The outcome each command meets: queries use up the outcomes to come, one each. */
  function Outcomes(served: seq<Packet>, replies: seq<HttpReply>): (r: seq<HttpReply>)
    ensures |r| == |served|
  {
    if served == [] then []
    else [Head(replies)] + Outcomes(served[1..], if IsQuery(served[0]) then Rest(replies) else replies)
  }

  /** The bytes of all answers in a row. */
  function Answers(served: seq<Packet>, outcomes: seq<HttpReply>): bytes
    requires |served| == |outcomes| && forall p <- served :: p.payload != []
  {
    if served == [] then []
    else
      Burst(Sendable(AnswerPackets(served[0].payload, outcomes[0])), Next(served[0].no))
      + Answers(served[1..], outcomes[1..])
  }

  /** What the command loop does, whatever the client sent and whenever the connection breaks:
      the server is asked exactly the client's own query texts, in order and under the one id,
      and the answers go out one after another, as far as the connection carries them. */
  lemma {:induction false} CommandLoopIs(s: State, id: SessionId)
    ensures var served := Served(ReadAll(s.input).0);
            var end := Commands(s, id);
            && end.calls == s.calls + QueryCalls(id, QueryTexts(served))
            && end.link == Push(s.link, Answers(served, Outcomes(served, s.replies))).0
    decreases |s.input|
  {
    hide AnswerPackets, SendAll, Push, Burst, ParsePacket, Sendable;
    var (ps, _) := ReadAll(s.input);
    match ParsePacket(s.input)
    case Failed =>
      PushEmpty(s.link);
    case Got(p, rest) =>
      var s1 := s.(input := rest);
      var (more, _) := ReadAll(rest);
      assert ps == [p] + more && ps[1..] == more;
      if p.payload == [] {
        CommandLoopIs(s1, id);
      } else if p.payload[0] == COM_QUIT {
        PushEmpty(s.link);
      } else {
        var s2 := MySqlProxy.Answer(s1, id, p.payload, Next(p.no));
        CommandLoopIs(s2, id);
        CommandLoopStep(s1, id, p, Served(more));
      }
  }

  lemma CommandLoopStep(s: State, id: SessionId, p: Packet, more: seq<Packet>)
    requires p.payload != [] && forall q <- more :: q.payload != []
    ensures var s2 := MySqlProxy.Answer(s, id, p.payload, Next(p.no));
            var served := [p] + more;
            && s2.replies == (if IsQuery(p) then Rest(s.replies) else s.replies)
            && Push(s2.link, Answers(more, Outcomes(more, s2.replies))).0 ==
               Push(s.link, Answers(served, Outcomes(served, s.replies))).0
            && s2.calls + QueryCalls(id, QueryTexts(more)) == s.calls + QueryCalls(id, QueryTexts(served))
  {
    hide AnswerPackets, SendAll, Push, Burst, Sendable, QueryCalls, QueryTexts, Answers, Outcomes;
    var s2 := MySqlProxy.Answer(s, id, p.payload, Next(p.no));
    var served := [p] + more;
    var packets := AnswerPackets(p.payload, Head(s.replies));
    SendAllIs(s.link, packets, Next(p.no));
    ServedStep(p, more, s.replies);
    PushTwice(s.link, Burst(Sendable(packets), Next(p.no)), Answers(more, Outcomes(more, s2.replies)));
    if IsQuery(p) {
      QueryCallsStep(id, p.payload[1..], QueryTexts(more));
      AppendTwo(s.calls, [Query(id, COM_QUERY, p.payload[1..], [])], QueryCalls(id, QueryTexts(more)));
    }
  }

  lemma ServedStep(p: Packet, more: seq<Packet>, replies: seq<HttpReply>)
    requires p.payload != [] && forall q <- more :: q.payload != []
    ensures var served := [p] + more;
            var left := if IsQuery(p) then Rest(replies) else replies;
            && Answers(served, Outcomes(served, replies)) ==
               Burst(Sendable(AnswerPackets(p.payload, Head(replies))), Next(p.no))
               + Answers(more, Outcomes(more, left))
            && QueryTexts(served) == (if IsQuery(p) then [p.payload[1..]] else []) + QueryTexts(more)
  {
    hide AnswerPackets, Burst, Sendable, Head, Rest;
    var served := [p] + more;
    assert served[1..] == more;
    var left := if IsQuery(p) then Rest(replies) else replies;
    assert Outcomes(served, replies)[1..] == Outcomes(more, left);
    assert [] + QueryTexts(more) == QueryTexts(more);
  }

  lemma QueryCallsStep(id: SessionId, text: bytes, more: seq<bytes>)
    ensures QueryCalls(id, [text] + more) == [Query(id, COM_QUERY, text, [])] + QueryCalls(id, more)
  {
  }

  // ---------- reading a whole conversation ----------

  /** The client reads one answer per command it is served, expecting the number after the
      command's own, and there must be nothing else. */
  function ReadConversation(stream: bytes, served: seq<Packet>): Option<seq<MySqlClient.Answer>>
    decreases |served|
  {
    if served == [] then if stream == [] then Some([]) else None
    else
      var (a, rest, _) :- ReadAnswer(stream, Next(served[0].no));
      var more :- ReadConversation(rest, served[1..]);
      Some([a] + more)
  }

  function AllMeant(served: seq<Packet>, outcomes: seq<HttpReply>): seq<MySqlClient.Answer>
    requires |served| == |outcomes| && forall p <- served :: p.payload != []
  {
    if served == [] then []
    else [Meant(served[0].payload, outcomes[0])] + AllMeant(served[1..], outcomes[1..])
  }

  predicate AllAnswerable(served: seq<Packet>, outcomes: seq<HttpReply>)
    requires |served| == |outcomes| && forall p <- served :: p.payload != []
  {
    forall i :: 0 <= i < |served| ==> Sane(outcomes[i]) && Answerable(served[i].payload, outcomes[i])
  }

  lemma {:induction false} ConversationRoundTrip(served: seq<Packet>, outcomes: seq<HttpReply>)
    requires |served| == |outcomes| && (forall p <- served :: p.payload != []) && AllAnswerable(served, outcomes)
    ensures ReadConversation(Answers(served, outcomes), served) == Some(AllMeant(served, outcomes))
  {
    hide AnswerPackets, Burst, Sendable, ReadAnswer, Meant, Sane;
    if served != [] {
      var c := served[0];
      var packets := AnswerPackets(c.payload, outcomes[0]);
      assert Sane(outcomes[0]) && Answerable(c.payload, outcomes[0]);
      assert Sendable(packets) == packets;
      AnswerRoundTrip(c.payload, outcomes[0], Next(c.no), Answers(served[1..], outcomes[1..]));
      ConversationRoundTrip(served[1..], outcomes[1..]);
    }
  }

  /** A whole connection, on a healthy link: for any commands the client sends, and any
      outcomes that can be answered, it reads exactly one complete answer per non-empty
      command before Quit, in order, each numbered from the command's own number plus one
      and each with the meant content, and not a byte is left over. */
  lemma WholeConversation(commands: seq<Packet>, replies: seq<HttpReply>, id: SessionId)
    requires AllFit(commands)
    requires AllAnswerable(Served(commands), Outcomes(Served(commands), replies))
    ensures var end := Commands(State(Stream(commands), Link([], None), replies, []), id);
            && ReadConversation(end.link.out, Served(commands)) ==
               Some(AllMeant(Served(commands), Outcomes(Served(commands), replies)))
            && end.calls == QueryCalls(id, QueryTexts(Served(commands)))
  {
    hide Commands, AllAnswerable, AllMeant, ReadConversation;
    var s := State(Stream(commands), Link([], None), replies, []);
    FramingRoundTrip(commands);
    CommandLoopIs(s, id);
    var served := Served(commands);
    var outcomes := Outcomes(served, replies);
    ConversationRoundTrip(served, outcomes);
    assert [] + Answers(served, outcomes) == Answers(served, outcomes);
    assert [] + QueryCalls(id, QueryTexts(served)) == QueryCalls(id, QueryTexts(served));
  }

  /** A connection that breaks after `n` more bytes delivers exactly the first `n` bytes of
      what a healthy one delivers, and the server sees the same calls. */
  lemma BreakingLinkDeliversPrefix(s: State, id: SessionId, n: nat)
    requires s.link == Link([], None)
    ensures var whole := Commands(s, id);
            var cut := Commands(s.(link := Link([], Some(n))), id);
            && cut.calls == whole.calls
            && cut.link.out == if n < |whole.link.out| then whole.link.out[..n] else whole.link.out
  {
    hide Commands;
    CommandLoopIs(s, id);
    CommandLoopIs(s.(link := Link([], Some(n))), id);
    var b := Answers(Served(ReadAll(s.input).0), Outcomes(Served(ReadAll(s.input).0), s.replies));
    assert [] + b == b;
    if n < |b| {
      assert [] + b[..n] == b[..n];
    }
  }

  // ---------- session lifecycle ----------

  /** The HTTP calls of a whole connection, for every client, every server and every point at
      which the connection breaks. */
  lemma CallsOfConnection(s: State, greeting: bytes, session: Option<SessionId>)
    requires s.calls == []
    ensures var (end, ending) := Connection(s, greeting, session);
            var g := ParsePacket(s.input);
            match ending
            case Closed(id) =>
              && session == Some(id) && g.Got?
              && end.calls == [Open(g.packet.payload)]
                              + QueryCalls(id, QueryTexts(Served(ReadAll(g.rest).0))) + [Close(id)]
            case AuthLost(id) => session == Some(id) && g.Got? && end.calls == [Open(g.packet.payload)]
            case Refused => session == None && g.Got? && end.calls == [Open(g.packet.payload)]
            case _ => end.calls == []
  {
    hide Commands, SendPacket, PlainOk, ErrPacket, Handshake.Parse, ParsePacket, ReadAll, Served, QueryTexts, Ascii,
         Outcomes, Answers, QueryCalls;
    var g := ParsePacket(s.input);
    if g.Got? && session.Some? {
      var (k0, _) := SendPacket(s.link, greeting, 0);
      var s2 := State(g.rest, SendPacket(k0, PlainOk(), Next(g.packet.no)).0, s.replies,
        s.calls + [Open(g.packet.payload)]);
      CommandLoopIs(s2, session.value);
    }
  }

  /** Session lifecycle: a run that enters the command loop makes exactly one CloseSession
      call, for the id it was given, as its last call, and names no other id before. */
  lemma SessionLifecycle(s: State, greeting: bytes, session: Option<SessionId>)
    requires s.calls == []
    ensures var (end, ending) := Connection(s, greeting, session);
            ending.Closed? ==>
              && session == Some(ending.id)
              && (forall i :: 0 <= i < |end.calls| ==>
                    && (end.calls[i].Close? <==> i == |end.calls| - 1)
                    && (end.calls[i].Open? <==> i == 0)
                    && (!end.calls[i].Open? ==> end.calls[i].id == ending.id))
  {
    hide Connection;
    CallsOfConnection(s, greeting, session);
  }

  /** When a session is asked for, and when it is closed: the greeting must get through, a packet
      must come back and must parse; and the session is closed exactly when the OK packet that ends
      the handshake gets through, too. If the connection breaks between the two it never is. */
  lemma SessionIsClosedExactlyWhen(s: State, greeting: bytes, id: SessionId)
    requires s.calls == [] && Fits(greeting)
    ensures var calls := Connection(s, greeting, Some(id)).0.calls;
            var g := ParsePacket(s.input);
            var answered := g.Got? && Handshake.Parse(g.packet.payload).Parsed?;
            && (calls != [] <==> answered && Carries(s.link, |greeting| + 4))
            && (Close(id) in calls <==> answered && Carries(s.link, |greeting| + |PlainOk()| + 8))
  {
    hide Connection, PlainOk, Handshake.Parse, Push, Carries, SendPacket, ParsePacket;
    var (end, ending) := Connection(s, greeting, Some(id));
    CallsOfConnection(s, greeting, Some(id));
    HowItEnds(s, greeting, id);
    PlainOkFits();
    SendPacketIs(s.link, greeting, 0);
    PushRoom(s.link, Frame(greeting, 0));
    if Carries(s.link, |greeting| + |PlainOk()| + 8) {
      CarriesLess(s.link, |greeting| + 4, |greeting| + |PlainOk()| + 8);
    }
    var (k0, ok0) := Push(s.link, Frame(greeting, 0));
    if ok0 && ParsePacket(s.input).Got? {
      var no := Next(ParsePacket(s.input).packet.no);
      SendPacketIs(k0, PlainOk(), no);
      PushRoom(k0, Frame(PlainOk(), no));
      CarriesBoth(s.link, k0, |greeting| + 4, |PlainOk()| + 4);
    }
    if ending.Closed? {
      assert end.calls[|end.calls| - 1] == Close(id);
    }
  }

  lemma PlainOkFits()
    ensures Fits(PlainOk())
  {
    hide PlainOk;
    PlainOkAnswer(0, []);
  }

  lemma HowItEnds(s: State, greeting: bytes, id: SessionId)
    ensures var ending := Connection(s, greeting, Some(id)).1;
            var (k0, ok0) := SendPacket(s.link, greeting, 0);
            var g := ParsePacket(s.input);
            var asked := ok0 && g.Got? && Handshake.Parse(g.packet.payload).Parsed?;
            && !ending.Refused? && (ending.Closed? || ending.AuthLost? <==> asked)
            && (ending.Closed? <==> asked && SendPacket(k0, PlainOk(), Next(g.packet.no)).1)
            && (ending.Closed? ==> ending.id == id)
  {
    hide Commands, PlainOk, ErrPacket, Handshake.Parse, SendPacket, ParsePacket, Ascii;
  }

  /** The link breaks only after this many bytes, if at all. */
  predicate Carries(k: Link, n: nat) {
    k.room.None? || k.room.value >= n
  }

  lemma CarriesLess(k: Link, n: nat, more: nat)
    requires n <= more && Carries(k, more)
    ensures Carries(k, n)
  {
  }

  lemma CarriesBoth(k: Link, k0: Link, n: nat, more: nat)
    requires Carries(k, n) && k0.room == match k.room case None => None case Some(room) => Some(room - n)
    ensures Carries(k0, more) <==> Carries(k, n + more)
  {
  }

  lemma PushRoom(k: Link, b: bytes)
    ensures Push(k, b).1 <==> Carries(k, |b|)
    ensures Push(k, b).1 ==>
              Push(k, b).0.room == match k.room case None => None case Some(n) => Some(n - |b|)
  {
  }
}

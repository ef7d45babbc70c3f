/** Everything a MySQL client reads on a connection, from the greeting to the last answer. */
module MySqlLogin {
  import opened ByteStrings
  import opened Wire
  import opened Packets
  import opened Http
  import opened MySqlProxy
  import opened MySqlClient
  import opened MySqlConversation
  import MySqlAnswers
  import Handshake

  lemma HealthyPush(out: bytes, b: bytes)
    ensures Push(Link(out, None), b) == (Link(out + b, None), true)
  {
  }

  lemma HealthySend(out: bytes, payload: bytes, no: byte)
    requires Fits(payload)
    ensures SendPacket(Link(out, None), payload, no) == (Link(out + Frame(payload, no), None), true)
  {
    SendPacketIs(Link(out, None), payload, no);
    HealthyPush(out, Frame(payload, no));
  }

  /** The greeting is the first packet, under number 0, whatever follows. */
  lemma GreetingFirst(greeting: bytes, tail: bytes)
    requires Fits(greeting)
    ensures NextPacket(Frame(greeting, 0) + tail, 0) == Some((greeting, tail))
  {
    MySqlAnswers.NextPacketOf(greeting, 0, tail);
  }

  /** One packet, numbered `no`, is the next answer. */
  lemma FrameIsAnswer(p: bytes, a: MySqlClient.Answer, no: byte, tail: bytes)
    requires Fits(p) && ReadAnswer(Burst([p], no) + tail, no) == Some((a, tail, Next(no)))
    ensures ReadAnswer(Frame(p, no) + tail, no) == Some((a, tail, Next(no)))
  {
    hide ReadAnswer, Frame;
    BurstStep(p, [], no);
    assert [p] + [] == [p];
    EmptyBurst(Next(no));
    hide Burst;
    assert Frame(p, no) + [] == Frame(p, no);
  }

  const DENIED: MySqlClient.Answer := Error(1045, Ascii("28000"), Ascii("Access denied"))
  const REFUSED: MySqlClient.Answer := Error(1040, Ascii("08004"), Ascii("Too many connections"))
  const LOGGED_IN: MySqlClient.Answer := Done(0, 0, 2, 0, [])

  lemma DeniedReads(no: byte)
    ensures var p := ErrPacket(1045, STATE_DENIED, ACCESS_DENIED);
            Fits(p) && ReadAnswer(Frame(p, no), no) == Some((DENIED, [], Next(no)))
  {
    hide ReadAnswer, Frame, Burst;
    var p := ErrPacket(1045, STATE_DENIED, ACCESS_DENIED);
    ErrAnswer(1045, STATE_DENIED, ACCESS_DENIED, no, []);
    hide ErrPacket;
    FrameIsAnswer(p, DENIED, no, []);
    assert Frame(p, no) + [] == Frame(p, no);
  }

  lemma RefusedReads(no: byte)
    ensures var p := ErrPacket(1040, STATE_REFUSED, TOO_MANY);
            Fits(p) && ReadAnswer(Frame(p, no), no) == Some((REFUSED, [], Next(no)))
  {
    hide ReadAnswer, Frame, Burst;
    var p := ErrPacket(1040, STATE_REFUSED, TOO_MANY);
    ErrAnswer(1040, STATE_REFUSED, TOO_MANY, no, []);
    hide ErrPacket;
    FrameIsAnswer(p, REFUSED, no, []);
    assert Frame(p, no) + [] == Frame(p, no);
  }

  lemma LoggedInReads(no: byte, tail: bytes)
    ensures Fits(PlainOk()) && ReadAnswer(Frame(PlainOk(), no) + tail, no) == Some((LOGGED_IN, tail, Next(no)))
  {
    hide ReadAnswer, Frame, Burst, PlainOk;
    PlainOkAnswer(no, tail);
    FrameIsAnswer(PlainOk(), LOGGED_IN, no, tail);
  }

  /** What follows the greeting, for each way the connection can end on a healthy link. */
  function AfterGreeting(s: State, ending: Ending): bytes {
    var g := ParsePacket(s.input);
    if !g.Got? then []
    else
      var no := Next(g.packet.no);
      match ending
      case Denied => Frame(ErrPacket(1045, STATE_DENIED, ACCESS_DENIED), no)
      case Refused => Frame(ErrPacket(1040, STATE_REFUSED, TOO_MANY), no)
      case Closed(_) =>
        var served := Served(ReadAll(g.rest).0);
        Frame(PlainOk(), no) + Answers(served, Outcomes(served, s.replies))
      case _ => []
  }

  lemma ConnectionWrites(s: State, greeting: bytes, session: Option<SessionId>)
    requires s.link == Link([], None) && Fits(greeting)
    ensures var (end, ending) := Connection(s, greeting, session);
            && end.link.out == Frame(greeting, 0) + AfterGreeting(s, ending)
            && !ending.GreetingLost? && !ending.AuthLost?
  {
    hide Frame, Push, ErrPacket, PlainOk, Commands, Handshake.Parse, ParsePacket, Served, Answers, Outcomes, SendPacket,
         ReadAll, Ascii;
    var hello := Frame(greeting, 0);
    HealthySend([], greeting, 0);
    assert [] + hello == hello;
    assert hello + [] == hello;
    var g := ParsePacket(s.input);
    if g.Got? {
      var no := Next(g.packet.no);
      DeniedReads(no);
      RefusedReads(no);
      LoggedInReads(no, []);
      HealthySend(hello, ErrPacket(1045, STATE_DENIED, ACCESS_DENIED), no);
      HealthySend(hello, ErrPacket(1040, STATE_REFUSED, TOO_MANY), no);
      HealthySend(hello, PlainOk(), no);
      if session.Some? {
        LoopWrites(s, hello, session.value, g);
      }
    }
  }

  lemma LoopWrites(s: State, hello: bytes, id: SessionId, g: ReadResult)
    requires g.Got? && g == ParsePacket(s.input)
    ensures var no := Next(g.packet.no);
            var link := Link(hello + Frame(PlainOk(), no), None);
            var s2 := State(g.rest, link, s.replies, s.calls + [Open(g.packet.payload)]);
            Commands(s2, id).link.out == hello + AfterGreeting(s, Closed(id))
  {
    hide Frame, PlainOk, Commands, ParsePacket, Served, Answers, Outcomes, Push, ReadAll;
    var no := Next(g.packet.no);
    var s2 := State(g.rest, Link(hello + Frame(PlainOk(), no), None), s.replies, s.calls + [Open(g.packet.payload)]);
    CommandLoopIs(s2, id);
    var served := Served(ReadAll(g.rest).0);
    var answers := Answers(served, Outcomes(served, s.replies));
    HealthyPush(hello + Frame(PlainOk(), no), answers);
    AppendTwo(hello, Frame(PlainOk(), no), answers);
  }

  /** How a connection ends on a healthy link, told from what the client sends. */
  lemma HowItEndsHealthy(s: State, greeting: bytes, session: Option<SessionId>)
    requires s.link == Link([], None) && Fits(greeting)
    ensures var ending := Connection(s, greeting, session).1;
            var g := ParsePacket(s.input);
            && (ending == NoResponse <==> !g.Got?)
            && (g.Got? ==>
                  var parsed := Handshake.Parse(g.packet.payload);
                  && (ending == Denied <==> |g.packet.payload| < 4)
                  && (ending == Panicked <==> parsed == Handshake.Crash)
                  && (ending == Refused <==> parsed.Parsed? && session == None)
                  && (ending.Closed? <==> parsed.Parsed? && session.Some?)
                  && (ending.Closed? ==> session == Some(ending.id)))
  {
    hide Frame, Push, ErrPacket, PlainOk, Commands, Handshake.Parse, ParsePacket, SendPacket, Ascii;
    var hello := Frame(greeting, 0);
    HealthySend([], greeting, 0);
    var g := ParsePacket(s.input);
    if g.Got? {
      LoggedInReads(Next(g.packet.no), []);
      HealthySend([] + hello, PlainOk(), Next(g.packet.no));
      Handshake.TooShortExactly(g.packet.payload);
    }
  }

  /** Everything a client reads on a healthy link. The greeting comes first, as packet 0. Then,
      numbered one after the client's own response: an OK packet if there is a session, an error if
      the response is too short or the server has no session, and nothing if no response could be
      read. After the OK come the answers to the commands, and nothing after the last. */
  lemma WholeConnection(s: State, greeting: bytes, session: Option<SessionId>)
    requires s.link == Link([], None) && Fits(greeting)
    ensures var (end, ending) := Connection(s, greeting, session);
            var g := ParsePacket(s.input);
            var hello := NextPacket(end.link.out, 0);
            && hello.Some? && hello.value.0 == greeting
            && var no := if g.Got? then (g.packet.no + 1) % 256 else 0;
               match ending
               case NoResponse => hello.value.1 == []
               case Panicked => hello.value.1 == []
               case Denied =>
                 g.Got? && ReadAnswer(hello.value.1, no) == Some((DENIED, [], (g.packet.no + 2) % 256))
               case Refused =>
                 g.Got? && ReadAnswer(hello.value.1, no) == Some((REFUSED, [], (g.packet.no + 2) % 256))
               case Closed(_) =>
                 && g.Got?
                 && var login := ReadAnswer(hello.value.1, no);
                    var served := Served(ReadAll(g.rest).0);
                    var outcomes := Outcomes(served, s.replies);
                    && login.Some? && login.value.0 == LOGGED_IN
                    && (AllAnswerable(served, outcomes) ==>
                          ReadConversation(login.value.1, served) == Some(AllMeant(served, outcomes)))
               case _ => false
  {
    hide Frame, ErrPacket, PlainOk, Connection, ParsePacket, Served, Answers, Outcomes, ReadAnswer, ReadAll,
         ReadConversation, AllAnswerable, AllMeant, NextPacket;
    var (end, ending) := Connection(s, greeting, session);
    ConnectionWrites(s, greeting, session);
    HowItEndsHealthy(s, greeting, session);
    GreetingFirst(greeting, AfterGreeting(s, ending));
    var g := ParsePacket(s.input);
    if g.Got? {
      var no := Next(g.packet.no);
      assert Next(no) == (g.packet.no + 2) % 256;
      DeniedReads(no);
      RefusedReads(no);
      var served := Served(ReadAll(g.rest).0);
      var outcomes := Outcomes(served, s.replies);
      LoggedInReads(no, Answers(served, outcomes));
      if AllAnswerable(served, outcomes) {
        ConversationRoundTrip(served, outcomes);
      }
    }
  }
}

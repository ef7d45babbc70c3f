/** What an Execute runs, against what it names. The handler caches one statement per session and
    looks at no names (pkg/handler/handler.go:132-198); the protocol keeps a statement per Parse
    and binds it to a portal, which the Execute names (PostgreSQL, "Message Flow", "Extended
    Query"). */
module Portals {
  import opened ByteStrings
  import opened Http
  import opened MessageTypes
  import opened Clients
  import opened PrivateConnections
  import Parser = PgParser
  import PgProxy

  // ---------- the names in the messages ----------

  /** The first name of a message: the statement of a Parse, the portal of a Bind or an Execute. */
  function FirstName(x: PgProxy.Exchange): bytes {
    if Parser.Pieces(x.raw) != [] then Parser.Pieces(x.raw)[0] else []
  }

  /** The second name: the statement of a Bind. */
  function SecondName(x: PgProxy.Exchange): bytes {
    if |Parser.Pieces(x.raw)| >= 2 then Parser.Pieces(x.raw)[1] else []
  }

  // ---------- what the protocol means ----------

  /** The Parse among the first `n` messages that made the statement of this name what it is. */
  function ParseOf(xs: seq<PgProxy.Exchange>, n: nat, name: bytes): Option<nat>
    requires n <= |xs|
  {
    if n == 0 then None
    else if xs[n - 1].kind == PARSE && FirstName(xs[n - 1]) == name then Some(n - 1)
    else ParseOf(xs, n - 1, name)
  }

  /** The Parse whose statement the portal of this name was bound to last. */
  function BoundTo(xs: seq<PgProxy.Exchange>, n: nat, portal: bytes): Option<nat>
    requires n <= |xs|
  {
    if n == 0 then None
    else if xs[n - 1].kind == BIND && FirstName(xs[n - 1]) == portal then ParseOf(xs, n - 1, SecondName(xs[n - 1]))
    else BoundTo(xs, n - 1, portal)
  }

  /** The Parse that Execute `i` is meant to run, through its portal. */
  function Named(xs: seq<PgProxy.Exchange>, i: nat): Option<nat>
    requires i < |xs|
  {
    BoundTo(xs, i, FirstName(xs[i]))
  }

  // ---------- what is run ----------

  /** The last Parse, whatever its name. */
  function LastParse(xs: seq<PgProxy.Exchange>, n: nat): Option<nat>
    requires n <= |xs|
  {
    if n == 0 then None else if xs[n - 1].kind == PARSE then Some(n - 1) else LastParse(xs, n - 1)
  }

  /** The text of a message; none and an empty one are treated alike. */
  function TextAt(xs: seq<PgProxy.Exchange>, p: Option<nat>): bytes {
    match p
    case None => []
    case Some(k) => if k < |xs| then xs[k].sql else []
  }

  function IfAny(text: bytes): Option<bytes> {
    if text == [] then None else Some(text)
  }

  lemma {:induction false} LatestParseIs(xs: seq<PgProxy.Exchange>, n: nat)
    requires n <= |xs|
    ensures LatestParse(Forwards(xs)[..n]) == TextAt(xs, LastParse(xs, n))
  {
    if n > 0 {
      assert Forwards(xs)[..n][..n - 1] == Forwards(xs)[..n - 1];
      LatestParseIs(xs, n - 1);
      LastParseBound(xs, n - 1);
    }
  }

  lemma {:induction false} LastParseBound(xs: seq<PgProxy.Exchange>, n: nat)
    requires n <= |xs|
    ensures LastParse(xs, n).Some? ==> LastParse(xs, n).value < n && xs[LastParse(xs, n).value].kind == PARSE
    ensures forall k :: 0 <= k < n && xs[k].kind == PARSE ==> LastParse(xs, n).Some? && k <= LastParse(xs, n).value
  {
    if n > 0 {
      LastParseBound(xs, n - 1);
    }
  }

  lemma {:induction false} ParseOfBound(xs: seq<PgProxy.Exchange>, n: nat, name: bytes)
    requires n <= |xs|
    ensures ParseOf(xs, n, name).Some? ==>
              && ParseOf(xs, n, name).value < n && xs[ParseOf(xs, n, name).value].kind == PARSE
              && FirstName(xs[ParseOf(xs, n, name).value]) == name
  {
    hide FirstName;
    if n > 0 {
      ParseOfBound(xs, n - 1, name);
    }
  }

  lemma {:induction false} BoundToBound(xs: seq<PgProxy.Exchange>, n: nat, portal: bytes)
    requires n <= |xs|
    ensures BoundTo(xs, n, portal).Some? ==>
              BoundTo(xs, n, portal).value < n && xs[BoundTo(xs, n, portal).value].kind == PARSE
  {
    hide FirstName, SecondName;
    if n > 0 {
      BoundToBound(xs, n - 1, portal);
      ParseOfBound(xs, n - 1, SecondName(xs[n - 1]));
    }
  }

  /** Execute `i` runs the statement its portal names, or nothing if it names none. */
  predicate RunsItsPortal(xs: seq<PgProxy.Exchange>, i: nat)
    requires i < |xs|
  {
    TextRun(Forwards(xs), i) == IfAny(TextAt(xs, Named(xs, i)))
  }

  /** An Execute runs the statement its portal names exactly if the Parse it names and the last
      Parse before it have the same text. */
  lemma {:induction false} ExecuteRunsItsPortalExactlyWhen(xs: seq<PgProxy.Exchange>, i: nat)
    requires i < |xs| && xs[i].kind == EXECUTE
    ensures RunsItsPortal(xs, i) <==> TextAt(xs, LastParse(xs, i)) == TextAt(xs, Named(xs, i))
  {
    hide RunsItsPortal, LatestParse, Named, LastParse, TextAt, IfAny;
    LatestParseIs(xs, i);
    RunsLatest(xs, i);
    IfAnyTells(TextAt(xs, LastParse(xs, i)), TextAt(xs, Named(xs, i)));
  }

  lemma RunsLatest(xs: seq<PgProxy.Exchange>, i: nat)
    requires i < |xs| && xs[i].kind == EXECUTE
    ensures RunsItsPortal(xs, i) == (IfAny(LatestParse(Forwards(xs)[..i])) == IfAny(TextAt(xs, Named(xs, i))))
  {
    ExecuteRuns(Forwards(xs), i);
    hide TextRun, LatestParse, Named, TextAt, IfAny;
  }

  lemma IfAnyTells(a: bytes, b: bytes)
    ensures IfAny(a) == IfAny(b) <==> a == b
  {
  }

  lemma ExecuteRuns(asks: seq<Ask>, i: nat)
    requires i < |asks| && asks[i].kind == EXECUTE
    ensures TextRun(asks, i) == IfAny(LatestParse(asks[..i]))
  {
    hide LatestParse;
  }

  /** In particular if it names a Parse and none has come since. */
  lemma NoParseSinceIsEnough(xs: seq<PgProxy.Exchange>, i: nat)
    requires i < |xs| && xs[i].kind == EXECUTE && Named(xs, i).Some?
    requires forall k :: Named(xs, i).value < k < i ==> xs[k].kind != PARSE
    ensures RunsItsPortal(xs, i)
  {
    hide FirstName;
    BoundToBound(xs, i, FirstName(xs[i]));
    LastParseBound(xs, i);
    hide Named, LastParse, RunsItsPortal, BoundTo;
    ExecuteRunsItsPortalExactlyWhen(xs, i);
  }

  // ---------- an input at which it runs another statement ----------

  /** A forwarded message. */
  function Sent(kind: byte, payload: bytes): PgProxy.Exchange {
    PgProxy.Exchange(kind, Parser.Extracted(kind, payload), payload, Replied(QueryResponse([], [], 0, [])))
  }

  /** Parse s1, Parse s2, Bind the unnamed portal to s1, Execute the unnamed portal. */
  function TwoStatements(first: bytes, second: bytes): seq<PgProxy.Exchange> {
    [Sent(PARSE, [0x31, 0] + (first + [0] + [0, 0])), Sent(PARSE, [0x32, 0] + (second + [0] + [0, 0])),
     Sent(BIND, [0, 0x31, 0, 0, 0, 0, 0, 0, 0]), Sent(EXECUTE, [0, 0, 0, 0, 0])]
  }

  /** The Execute names the first statement and runs the second. */
  lemma ExecuteRunsTheWrongStatement(first: bytes, second: bytes)
    requires NoNull(first) && NoNull(second) && first != [] && second != [] && first != second
    ensures var xs := TwoStatements(first, second);
            && Named(xs, 3) == Some(0) && TextAt(xs, Named(xs, 3)) == first
            && TextRun(Forwards(xs), 3) == Some(second)
  {
    var xs := TwoStatements(first, second);
    hide Parser.Pieces, Parser.Extracted, FirstName, SecondName, LatestParse, TextRun;
    hide TwoStatements, Sent;
    TwoStatementsAre(first, second);
    FourNames(xs);
    LatestParseIs(xs, 3);
    ExecuteRuns(Forwards(xs), 3);
    hide LastParse, Named, Forwards;
  }

  lemma TwoStatementsAre(first: bytes, second: bytes)
    requires NoNull(first) && NoNull(second)
    ensures var xs := TwoStatements(first, second);
            && |xs| == 4
            && xs[0].kind == PARSE && FirstName(xs[0]) == [0x31] && xs[0].sql == first
            && xs[1].kind == PARSE && FirstName(xs[1]) == [0x32] && xs[1].sql == second
            && xs[2].kind == BIND && FirstName(xs[2]) == [] && SecondName(xs[2]) == [0x31]
            && xs[3].kind == EXECUTE && FirstName(xs[3]) == []
  {
    hide Parser.Pieces, Parser.Extracted, FirstName, SecondName, NoNull;
    assert [0x31] + [0] == [0x31, 0] && [0x32] + [0] == [0x32, 0];
    DigitNames();
    ParseNames([0x31], first);
    ParseNames([0x32], second);
    BindNames();
    ExecuteName();
  }

  lemma DigitNames()
    ensures NoNull([0x31]) && NoNull([0x32])
  {
  }

  lemma FourNames(xs: seq<PgProxy.Exchange>)
    requires |xs| == 4 && xs[0].kind == PARSE && FirstName(xs[0]) == [0x31]
    requires xs[1].kind == PARSE && FirstName(xs[1]) == [0x32]
    requires xs[2].kind == BIND && FirstName(xs[2]) == [] && SecondName(xs[2]) == [0x31]
    requires FirstName(xs[3]) == []
    ensures Named(xs, 3) == Some(0) && LastParse(xs, 3) == Some(1)
  {
    hide FirstName, SecondName;
    assert ParseOf(xs, 1, [0x31]) == Some(0);
    assert ParseOf(xs, 2, [0x31]) == ParseOf(xs, 1, [0x31]);
    assert LastParse(xs, 2) == Some(1);
  }

  lemma ParseNames(name: bytes, text: bytes)
    requires NoNull(name) && NoNull(text)
    ensures var payload := name + [0] + (text + [0] + [0, 0]);
            Sent(PARSE, payload).sql == text && FirstName(Sent(PARSE, payload)) == name
  {
    Parser.QueryTextRoundTrip(name, text, [0, 0]);
    Parser.PiecesStep(name, text + [0] + [0, 0]);
    hide Parser.Pieces, Parser.Extracted;
  }

  lemma BindNames()
    ensures var x := Sent(BIND, [0, 0x31, 0, 0, 0, 0, 0, 0, 0]); FirstName(x) == [] && SecondName(x) == [0x31]
  {
    var (payload, rest) := ([0, 0x31, 0, 0, 0, 0, 0, 0, 0], [0, 0, 0, 0, 0, 0]);
    assert payload == [] + [0] + ([0x31] + [0] + rest);
    Parser.PiecesStep([], [0x31] + [0] + rest);
    Parser.PiecesStep([0x31], rest);
    hide Parser.Pieces, Parser.Extracted;
  }

  lemma ExecuteName()
    ensures FirstName(Sent(EXECUTE, [0, 0, 0, 0, 0])) == []
  {
    assert [0, 0, 0, 0, 0] == [] + [0] + [0, 0, 0, 0];
    Parser.PiecesStep([], [0, 0, 0, 0]);
    hide Parser.Pieces, Parser.Extracted;
  }
}

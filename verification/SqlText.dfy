/** Command words and command tags: the small scanners the handler and both proxies run over
    SQL text (pkg/handler/handler.go, pkg/mysqlproxy/proxy.go, pkg/pgproxy/proxy.go). */
module SqlText {
  import opened ByteStrings

  predicate IsSpace(b: byte) {
    b == 0x20 || b == 0x09 || b == 0x0A || b == 0x0D
  }

  /** Ends a command word: white space, '(' or ';'. */
  predicate EndsCommand(b: byte) {
    IsSpace(b) || b == 0x28 || b == 0x3B
  }

  /** Separates the words createTag collects: white space or ';', but not '('. */
  predicate IsGap(b: byte) {
    IsSpace(b) || b == 0x3B
  }

  // ---------- the command word ----------

  function SkipSpace(sql: bytes): bytes {
    if sql != [] && IsSpace(sql[0]) then SkipSpace(sql[1..]) else sql
  }

  function TakeCommand(sql: bytes): bytes {
    if sql == [] || EndsCommand(sql[0]) then [] else [sql[0]] + TakeCommand(sql[1..])
  }

  /** The first word of a statement. */
  function CommandWord(sql: bytes): bytes {
    TakeCommand(SkipSpace(sql))
  }

  predicate AllSpace(b: bytes) {
    forall i :: 0 <= i < |b| ==> IsSpace(b[i])
  }

  predicate NoCommandEnd(b: bytes) {
    forall i :: 0 <= i < |b| ==> !EndsCommand(b[i])
  }

  lemma {:induction false} SkipSpaceSplits(space: bytes, rest: bytes)
    requires AllSpace(space) && (rest == [] || !IsSpace(rest[0]))
    ensures SkipSpace(space + rest) == rest
  {
    if space == [] {
      assert space + rest == rest;
    } else {
      assert (space + rest)[1..] == space[1..] + rest;
      SkipSpaceSplits(space[1..], rest);
    }
  }

  lemma {:induction false} TakeCommandSplits(word: bytes, rest: bytes)
    requires NoCommandEnd(word) && (rest == [] || EndsCommand(rest[0]))
    ensures TakeCommand(word + rest) == word
  {
    if word == [] {
      assert word + rest == rest;
    } else {
      assert (word + rest)[1..] == word[1..] + rest;
      TakeCommandSplits(word[1..], rest);
    }
  }

  /** What the command word is: however a statement is cut into leading white space, a word
      without an ending byte, and a rest that is empty or starts with one, that word is it. */
  lemma CommandWordIs(space: bytes, word: bytes, rest: bytes)
    requires AllSpace(space) && NoCommandEnd(word)
    requires rest == [] || (EndsCommand(rest[0]) && (word == [] ==> !IsSpace(rest[0])))
    ensures CommandWord(space + word + rest) == word
  {
    assert space + word + rest == space + (word + rest);
    SkipSpaceSplits(space, word + rest);
    TakeCommandSplits(word, rest);
  }

  /** Every statement can be cut that way. */
  lemma {:induction false} CommandWordExists(sql: bytes) returns (space: bytes, rest: bytes)
    ensures AllSpace(space) && NoCommandEnd(CommandWord(sql))
    ensures sql == space + CommandWord(sql) + rest
    ensures rest == [] || (EndsCommand(rest[0]) && (CommandWord(sql) == [] ==> !IsSpace(rest[0])))
  {
    if sql != [] && IsSpace(sql[0]) {
      space, rest := CommandWordExists(sql[1..]);
      space := [sql[0]] + space;
    } else {
      space := [];
      rest := TakeCommandRest(sql);
    }
  }

  lemma {:induction false} TakeCommandRest(sql: bytes) returns (rest: bytes)
    ensures NoCommandEnd(TakeCommand(sql)) && sql == TakeCommand(sql) + rest
    ensures rest == [] || EndsCommand(rest[0])
    ensures TakeCommand(sql) == [] ==> rest == sql
  {
    if sql == [] || EndsCommand(sql[0]) {
      rest := sql;
    } else {
      rest := TakeCommandRest(sql[1..]);
    }
  }

  /** sqlCommandType of the handler and of the MySQL proxy: two indices and a slice. */
  method SqlCommandType(sql: bytes) returns (word: bytes)
    ensures word == CommandWord(sql)
  {
    var i := 0;
    while i < |sql| && IsSpace(sql[i])
      invariant 0 <= i <= |sql| && SkipSpace(sql[i..]) == SkipSpace(sql)
    {
      i := i + 1;
    }
    assert SkipSpace(sql) == sql[i..];
    hide SkipSpace, IsSpace, TakeCommand;
    var j := i;
    while j < |sql| && !EndsCommand(sql[j])
      invariant i <= j <= |sql| && TakeCommand(sql[i..]) == sql[i..j] + TakeCommand(sql[j..])
    {
      TakeCommandStep(sql, i, j);
      j := j + 1;
    }
    TakeCommandEnds(sql, j);
    assert sql[i..j] + [] == sql[i..j];
    if j <= i {
      return [];
    }
    return sql[i..j];
  }

  lemma TakeCommandStep(sql: bytes, i: nat, j: nat)
    requires i <= j < |sql| && !EndsCommand(sql[j])
    ensures sql[i..j] + TakeCommand(sql[j..]) == sql[i..j + 1] + TakeCommand(sql[j + 1..])
  {
    assert sql[j..][1..] == sql[j + 1..];
    assert sql[i..j + 1] == sql[i..j] + [sql[j]];
  }

  lemma TakeCommandEnds(sql: bytes, j: nat)
    requires j == |sql| || (j < |sql| && EndsCommand(sql[j]))
    ensures TakeCommand(sql[j..]) == []
  {
    hide EndsCommand;
  }

  // ---------- the accumulating scanner of the PG proxy ----------

  /** Go's `string(b)` of a byte: the UTF-8 text of the code point with that number. */
  function Rune(b: byte): bytes {
    if b < 128 then [b] else [0xC0 + b / 64, 0x80 + b % 64]
  }

  function Widen(b: bytes): bytes {
    if b == [] then [] else Rune(b[0]) + Widen(b[1..])
  }

  predicate IsAscii(b: bytes) {
    forall i :: 0 <= i < |b| ==> b[i] < 128
  }

  lemma {:induction false} WidenAppend(b: bytes, c: byte)
    ensures Widen(b + [c]) == Widen(b) + Rune(c)
  {
    if b == [] {
      assert Widen([c]) == Rune(c) + Widen([c][1..]);
    } else {
      WidenAppend(b[1..], c);
      assert (b + [c])[1..] == b[1..] + [c];
      assert Rune(b[0]) + (Widen(b[1..]) + Rune(c)) == Rune(b[0]) + Widen(b[1..]) + Rune(c);
    }
  }

  lemma {:induction false} WidenLength(b: bytes)
    ensures |Widen(b)| >= |b|
    ensures |Widen(b)| == |b| <==> IsAscii(b)
    ensures IsAscii(b) ==> Widen(b) == b
  {
    if b != [] {
      WidenLength(b[1..]);
      assert IsAscii(b) <==> b[0] < 128 && IsAscii(b[1..]) by {
        assert forall i :: 0 < i < |b| ==> b[i] == b[1..][i - 1];
      }
    }
  }

  lemma EmptyWidens()
    ensures Widen([]) == []
  {
  }

  /** sqlCommandType of the PG proxy: appends `string(sql[i])` byte by byte. */
  method PgSqlCommandType(sql: bytes) returns (s: bytes)
    ensures s == Widen(CommandWord(sql))
  {
    hide Widen, Rune;
    s := [];
    EmptyWidens();
    var i := 0;
    while i < |sql| && IsSpace(sql[i])
      invariant 0 <= i <= |sql| && SkipSpace(sql[i..]) == SkipSpace(sql)
    {
      i := i + 1;
    }
    assert SkipSpace(sql) == sql[i..];
    ghost var read: bytes := [];
    while i < |sql| && !EndsCommand(sql[i])
      invariant 0 <= i <= |sql|
      invariant TakeCommand(SkipSpace(sql)) == read + TakeCommand(sql[i..])
      invariant s == Widen(read)
    {
      WidenAppend(read, sql[i]);
      assert sql[i..][1..] == sql[i + 1..];
      assert read + [sql[i]] + TakeCommand(sql[i + 1..]) == read + TakeCommand(sql[i..]);
      read := read + [sql[i]];
      s := s + Rune(sql[i]);
      i := i + 1;
    }
    assert read + [] == read;
  }

  /** The two scanners agree on a statement exactly when its command word is ASCII. */
  lemma ScannersAgree(sql: bytes)
    ensures Widen(CommandWord(sql)) == CommandWord(sql) <==> IsAscii(CommandWord(sql))
  {
    WidenLength(CommandWord(sql));
  }

  /** A word they do not agree on: the one byte 0xC9 is doubled. */
  lemma ScannersDisagree()
    ensures CommandWord([0xC9]) == [0xC9] && Widen(CommandWord([0xC9])) == [0xC3, 0x89]
  {
    CommandWordIs([], [0xC9], []);
    assert [] + [0xC9] + [] == [0xC9];
    assert Widen([0xC9]) == Rune(0xC9) + Widen([0xC9][1..]);
  }

  // ---------- words ----------

  function TakeRun(sql: bytes): (r: bytes)
    ensures |r| <= |sql| && sql[..|r|] == r
    ensures sql != [] && !IsGap(sql[0]) ==> r != []
  {
    if sql == [] || IsGap(sql[0]) then [] else [sql[0]] + TakeRun(sql[1..])
  }

  /** The maximal runs of bytes that are not separators. */
  function Words(sql: bytes): seq<bytes>
    decreases |sql|
  {
    if sql == [] then []
    else if IsGap(sql[0]) then Words(sql[1..])
    else [TakeRun(sql)] + Words(sql[|TakeRun(sql)|..])
  }

  predicate NoGap(b: bytes) {
    forall i :: 0 <= i < |b| ==> !IsGap(b[i])
  }

  predicate AllGap(b: bytes) {
    forall i :: 0 <= i < |b| ==> IsGap(b[i])
  }

  lemma {:induction false} TakeRunSplits(word: bytes, rest: bytes)
    requires NoGap(word) && (rest == [] || IsGap(rest[0]))
    ensures TakeRun(word + rest) == word
  {
    if word == [] {
      assert word + rest == rest;
    } else {
      assert (word + rest)[1..] == word[1..] + rest;
      TakeRunSplits(word[1..], rest);
    }
  }

  lemma {:induction false} WordsSkipGap(gap: bytes, rest: bytes)
    requires AllGap(gap)
    ensures Words(gap + rest) == Words(rest)
  {
    if gap == [] {
      assert gap + rest == rest;
    } else {
      assert (gap + rest)[1..] == gap[1..] + rest;
      WordsSkipGap(gap[1..], rest);
    }
  }

  lemma WordsTakeWord(word: bytes, rest: bytes)
    requires NoGap(word) && word != [] && (rest == [] || IsGap(rest[0]))
    ensures Words(word + rest) == [word] + Words(rest)
  {
    TakeRunSplits(word, rest);
    assert (word + rest)[|word|..] == rest;
    assert (word + rest)[0] == word[0];
  }

  // ---------- createTag ----------

  const CREATE: bytes := Ascii("CREATE")
  const ALTER: bytes := Ascii("ALTER")
  const DROP: bytes := Ascii("DROP")

  predicate IsDdl(word: bytes) {
    word == CREATE || word == ALTER || word == DROP
  }

  lemma DdlIsPlain(word: bytes)
    requires IsDdl(word)
    ensures word != [] && IsAscii(word) && NoGap(word)
  {
  }

  function WidenAll(ws: seq<bytes>): (r: seq<bytes>)
    ensures |r| == |ws|
  {
    seq(|ws|, i requires 0 <= i < |ws| => Widen(ws[i]))
  }

  function FirstThree(ws: seq<bytes>): seq<bytes> {
    if |ws| <= 3 then ws else ws[..3]
  }

  function Tag(parts: seq<bytes>): bytes
    requires parts != []
  {
    if |parts| >= 2 && IsDdl(parts[0]) then parts[0] + [0x20] + parts[1] else parts[0]
  }

  /** What createTag's loop has done before byte `i`: the words in `raw` are complete, and
      the bytes from `start` on belong to the current word. */
  ghost predicate Collected(sql: bytes, i: nat, start: nat, raw: seq<bytes>, parts: seq<bytes>, word: bytes) {
    && start <= i <= |sql|
    && NoGap(sql[start..i]) && word == Widen(sql[start..i])
    && parts == WidenAll(raw) && raw + Words(sql[start..]) == Words(sql)
  }

  lemma CollectGap(sql: bytes, i: nat, start: nat, raw: seq<bytes>, parts: seq<bytes>, word: bytes)
    requires i < |sql| && IsGap(sql[i]) && Collected(sql, i, start, raw, parts, word)
    ensures start == i ==> Collected(sql, i + 1, i + 1, raw, parts, [])
    ensures start < i ==> Collected(sql, i + 1, i + 1, raw + [sql[start..i]], parts + [word], [])
  {
    hide Widen;
    EmptyWidens();
    assert sql[i + 1..i + 1] == [];
    WordsAfterGap(sql, i);
    if start < i {
      assert sql[start..] == sql[start..i] + sql[i..];
      WordsTakeWord(sql[start..i], sql[i..]);
      hide Words;
      assert raw + [sql[start..i]] + Words(sql[i + 1..]) == raw + ([sql[start..i]] + Words(sql[i..]));
      assert WidenAll(raw + [sql[start..i]]) == WidenAll(raw) + [Widen(sql[start..i])];
    }
  }

  lemma WordsAfterGap(sql: bytes, i: nat)
    requires i < |sql| && IsGap(sql[i])
    ensures Words(sql[i..]) == Words(sql[i + 1..])
  {
    assert sql[i..][1..] == sql[i + 1..];
  }

  lemma CollectByte(sql: bytes, i: nat, start: nat, raw: seq<bytes>, parts: seq<bytes>, word: bytes)
    requires i < |sql| && !IsGap(sql[i]) && Collected(sql, i, start, raw, parts, word)
    ensures Collected(sql, i + 1, start, raw, parts, word + Rune(sql[i]))
  {
    hide Widen, Words, Rune;
    WidenAppend(sql[start..i], sql[i]);
    assert sql[start..i + 1] == sql[start..i] + [sql[i]];
  }

  lemma CollectEnd(sql: bytes, i: nat, start: nat, raw: seq<bytes>, parts: seq<bytes>, word: bytes)
    requires Collected(sql, i, start, raw, parts, word)
    requires |raw| == 3 || (i == |sql| && |raw| < 3)
    ensures var all := if start < i && |raw| < 3 then parts + [word] else parts;
            all == WidenAll(FirstThree(Words(sql)))
  {
    if |raw| == 3 {
      assert Words(sql)[..3] == raw;
    } else if start < i {
      assert sql[start..] == sql[start..i] + [];
      WordsTakeWord(sql[start..i], []);
      assert Words(sql) == raw + [sql[start..i]];
    } else {
      assert Words(sql[start..]) == [];
    }
  }

  /** createTag. It indexes the first word, so it needs a statement that has one. */
  method CreateTag(sql: bytes) returns (tag: bytes)
    requires Words(sql) != []
    ensures tag == Tag(WidenAll(FirstThree(Words(sql))))
  {
    hide IsDdl, Words, Widen, NoGap;
    var parts: seq<bytes>, word: bytes, inWord := [], [], false;
    ghost var raw: seq<bytes>, start := [], 0;
    CollectNothing(sql);
    var i := 0;
    while i < |sql| && |parts| < 3
      invariant inWord == (start < i) && |parts| <= 3 && (|parts| == 3 ==> !inWord)
      invariant Collected(sql, i, start, raw, parts, word)
    {
      var ch := sql[i];
      if IsGap(ch) {
        CollectGap(sql, i, start, raw, parts, word);
        if inWord {
          raw := raw + [sql[start..i]];
          parts := parts + [word];
          word := [];
          inWord := false;
        } else {
          CollectedNoWord(sql, i, start, raw, parts, word);
        }
        start := i + 1;
      } else {
        CollectByte(sql, i, start, raw, parts, word);
        word := word + Rune(ch);
        inWord := true;
      }
      i := i + 1;
    }
    CollectEnd(sql, i, start, raw, parts, word);
    if inWord && |parts| < 3 {
      parts := parts + [word];
    }
    if |parts| >= 2 && IsDdl(parts[0]) {
      return parts[0] + [0x20] + parts[1];
    }
    return parts[0];
  }

  lemma CollectNothing(sql: bytes)
    ensures Collected(sql, 0, 0, [], [], [])
  {
  }

  lemma CollectedNoWord(sql: bytes, i: nat, start: nat, raw: seq<bytes>, parts: seq<bytes>, word: bytes)
    requires Collected(sql, i, start, raw, parts, word) && start == i
    ensures word == []
  {
  }

  /** The scanners of commandTag and createTag use different separators, but whenever the
      first sees a DDL word, the second finds a first word, and that word starts with it. */
  lemma DdlHasFirstWord(sql: bytes)
    requires IsDdl(Widen(CommandWord(sql)))
    ensures IsDdl(CommandWord(sql))
    ensures Words(sql) != [] && IsPrefix(CommandWord(sql), Words(sql)[0])
  {
    hide IsDdl;
    var word := CommandWord(sql);
    var space, rest := CommandWordExists(sql);
    DdlIsPlain(Widen(word));
    WidenAscii(word);
    WordsSkipGap(space, word + rest);
    assert sql == space + (word + rest);
    RunExtends(word, rest);
    assert !IsGap((word + rest)[0]);
  }

  lemma {:induction false} RunExtends(word: bytes, rest: bytes)
    requires NoGap(word)
    ensures IsPrefix(word, TakeRun(word + rest))
  {
    if word != [] {
      assert (word + rest)[1..] == word[1..] + rest;
      RunExtends(word[1..], rest);
    }
  }

  lemma {:induction false} WidenedByteIsHigh(b: bytes, i: nat)
    requires i < |b| && b[i] >= 128
    ensures !IsAscii(Widen(b))
  {
    if i == 0 {
      assert Widen(b)[0] >= 128;
    } else {
      WidenedByteIsHigh(b[1..], i - 1);
      var k :| 0 <= k < |Widen(b[1..])| && Widen(b[1..])[k] >= 128;
      assert Widen(b)[|Rune(b[0])| + k] >= 128;
    }
  }

  lemma WidenAscii(b: bytes)
    requires IsAscii(Widen(b))
    ensures IsAscii(b) && Widen(b) == b
  {
    if !IsAscii(b) {
      var i :| 0 <= i < |b| && b[i] >= 128;
      WidenedByteIsHigh(b, i);
    }
    WidenLength(b);
  }

  /** What the tag says: the DDL word and the next word, whatever separates them. */
  lemma CreateTagMeaning(space: bytes, ddl: bytes, gap: bytes, noun: bytes, rest: bytes)
    requires AllSpace(space) && IsDdl(ddl) && gap != [] && AllGap(gap)
    requires noun != [] && NoGap(noun) && (rest == [] || IsGap(rest[0]))
    ensures var sql := space + (ddl + (gap + (noun + rest)));
            Words(sql) != [] && Tag(WidenAll(FirstThree(Words(sql)))) == ddl + [0x20] + Widen(noun)
  {
    hide IsDdl;
    DdlIsPlain(ddl);
    var sql := space + (ddl + (gap + (noun + rest)));
    WordsSkipGap(space, ddl + (gap + (noun + rest)));
    WordsTakeWord(ddl, gap + (noun + rest));
    WordsSkipGap(gap, noun + rest);
    WordsTakeWord(noun, rest);
    assert Words(sql) == [ddl] + ([noun] + Words(rest));
    assert FirstThree(Words(sql))[..2] == [ddl, noun];
    WidenLength(ddl);
  }

  // ---------- commandTag of the PG proxy ----------

  const SELECT: bytes := Ascii("SELECT")
  const SHOW: bytes := Ascii("SHOW")
  const EXPLAIN: bytes := Ascii("EXPLAIN")
  const DESCRIBE: bytes := Ascii("DESCRIBE")
  const INSERT: bytes := Ascii("INSERT")
  const UPDATE: bytes := Ascii("UPDATE")
  const DELETE: bytes := Ascii("DELETE")
  const MOVE: bytes := Ascii("MOVE")
  const FETCH: bytes := Ascii("FETCH")
  const COPY: bytes := Ascii("COPY")

  /** Enough letters of the command words to tell them apart. */
  lemma Letters()
    ensures SELECT[0] == 0x53 && SELECT[2] == 0x4C && SHOW[0] == 0x53 && SHOW[1] == 0x48 && EXPLAIN[0] == 0x45
    ensures DESCRIBE[0] == 0x44 && DESCRIBE[1] == 0x45 && DESCRIBE[2] == 0x53
  {
  }

  lemma CountedLetters()
    ensures INSERT[0] == 0x49 && UPDATE[0] == 0x55 && MOVE[0] == 0x4D && FETCH[0] == 0x46
    ensures DELETE[0] == 0x44 && DELETE[1] == 0x45 && DELETE[2] == 0x4C && COPY[0] == 0x43 && COPY[1] == 0x4F
  {
  }

  lemma DdlLetters()
    ensures CREATE[0] == 0x43 && CREATE[1] == 0x52 && ALTER[0] == 0x41 && DROP[0] == 0x44 && DROP[1] == 0x52
  {
  }

  lemma WordsAreAscii()
    ensures IsAscii(SELECT) && IsAscii(SHOW) && IsAscii(EXPLAIN) && IsAscii(DESCRIBE)
    ensures IsAscii(INSERT) && IsAscii(UPDATE) && IsAscii(DELETE) && IsAscii(MOVE) && IsAscii(FETCH) && IsAscii(COPY)
  {
  }

  predicate CountsRows(word: bytes) {
    word == SELECT || word == SHOW || word == EXPLAIN || word == DESCRIBE
  }

  predicate CountsAffected(word: bytes) {
    word == UPDATE || word == DELETE || word == MOVE || word == FETCH || word == COPY
  }

  function PgTag(sql: bytes, numRows: nat, affected: int): bytes {
    var cmd := Widen(CommandWord(sql));
    if CountsRows(cmd) then cmd + [0x20] + Decimal(numRows)
    else if cmd == INSERT then Ascii("INSERT 0 ") + Decimal(affected)
    else if CountsAffected(cmd) then cmd + [0x20] + Decimal(affected)
    else if IsDdl(cmd) then DdlHasFirstWord(sql); Tag(WidenAll(FirstThree(Words(sql))))
    else if affected > 0 then cmd + [0x20] + Decimal(affected)
    else cmd
  }

  method PgCommandTag(sql: bytes, numRows: nat, affected: int) returns (tag: bytes)
    ensures tag == PgTag(sql, numRows, affected)
  {
    var cmd := PgSqlCommandType(sql);
    if CountsRows(cmd) {
      tag := cmd + [0x20] + Decimal(numRows);
    } else if cmd == INSERT {
      tag := Ascii("INSERT 0 ") + Decimal(affected);
    } else if CountsAffected(cmd) {
      tag := cmd + [0x20] + Decimal(affected);
    } else if IsDdl(cmd) {
      DdlHasFirstWord(sql);
      tag := CreateTag(sql);
    } else if affected > 0 {
      tag := cmd + [0x20] + Decimal(affected);
    } else {
      tag := cmd;
    }
  }

  /** The number after the last space of a tag, as a client reads it. */
  function TagCount(tag: bytes): Option<nat> {
    ReadDigits(AfterLastSpace(tag))
  }

  function AfterLastSpace(tag: bytes): bytes {
    if tag == [] || tag[|tag| - 1] == 0x20 then [] else AfterLastSpace(tag[..|tag| - 1]) + [tag[|tag| - 1]]
  }

  lemma {:induction false} AfterLastSpaceIs(head: bytes, word: bytes)
    requires 0x20 !in word
    ensures AfterLastSpace(head + [0x20] + word) == word
  {
    var tag := head + [0x20] + word;
    if word != [] {
      assert tag[..|tag| - 1] == head + [0x20] + word[..|word| - 1];
      assert tag[|tag| - 1] == word[|word| - 1];
      AfterLastSpaceIs(head, word[..|word| - 1]);
    }
  }

  lemma CountedTag(head: bytes, n: nat)
    ensures TagCount(head + [0x20] + Decimal(n)) == Some(n)
  {
    AfterLastSpaceIs(head, Decimal(n));
    ReadDigitsOfDigits(n);
  }

  lemma CountedWords(word: bytes)
    requires CountsRows(word) || CountsAffected(word) || word == INSERT
    ensures IsAscii(word) && Widen(word) == word
    ensures word == INSERT ==> !CountsRows(word) && !CountsAffected(word)
    ensures CountsAffected(word) ==> !CountsRows(word)
  {
    hide Widen, Ascii, IsAscii;
    WidenLength(word);
    WordsAreAscii();
    Letters();
    CountedLetters();
  }

  /** The number a tag shows that is not the affected count: of rows, for the statements that are
      counted by rows; otherwise a word of the statement itself, if it happens to be a number. */
  function OwnNumber(sql: bytes, numRows: nat): Option<nat> {
    var word := CommandWord(sql);
    if CountsRows(word) then Some(numRows)
    else if !IsDdl(word) then ReadDigits(word)
    else if |Words(sql)| >= 2 && IsDdl(Words(sql)[0]) then ReadDigits(Words(sql)[1])
    else None
  }

  /** The words whose tag carries the affected count whatever it is. */
  predicate AlwaysCounts(word: bytes) {
    word == INSERT || CountsAffected(word)
  }

  /** The number a client is to read in the tag of a statement. */
  function TagNumber(sql: bytes, numRows: nat, affected: nat): Option<nat> {
    var word := CommandWord(sql);
    if AlwaysCounts(word) || (affected > 0 && !CountsRows(word) && !IsDdl(word)) then Some(affected)
    else OwnNumber(sql, numRows)
  }

  lemma CountedIsNoNumber(word: bytes)
    requires AlwaysCounts(word)
    ensures ReadDigits(word) == None && !IsDdl(word) && !CountsRows(word)
  {
    hide Ascii, ReadDigits;
    CountedWords(word);
    ReadDigitsOnlyDigits(word);
    CountedLetters();
    DdlLetters();
  }

  /** What a client reads in the tag, for every statement: the number of rows for SELECT, SHOW,
      EXPLAIN and DESCRIBE; the affected count for all others but CREATE, ALTER and DROP, where it
      is not told; and no count of zero, except for INSERT, UPDATE, DELETE, MOVE, FETCH, COPY. */
  lemma TagNumbers(sql: bytes, numRows: nat, affected: nat)
    ensures TagCount(PgTag(sql, numRows, affected)) == TagNumber(sql, numRows, affected)
    ensures CountsRows(CommandWord(sql)) ==> TagCount(PgTag(sql, numRows, affected)) == Some(numRows)
    ensures AlwaysCounts(CommandWord(sql)) ==> TagCount(PgTag(sql, numRows, affected)) == Some(affected)
  {
    hide TagCount, CountsRows, CountsAffected, Words, Widen, IsDdl, Decimal, CommandWord, Tag, WidenAll, FirstThree;
    var word := CommandWord(sql);
    SameWord(word);
    if CountsRows(word) || AlwaysCounts(word) {
      CountedWords(word);
      CountedTag(word, if CountsRows(word) then numRows else affected);
      CountedTag(Ascii("INSERT 0"), affected);
      assert Ascii("INSERT 0 ") == Ascii("INSERT 0") + [0x20];
    } else if IsDdl(word) {
      DdlHasFirstWord(sql);
      DdlTagNumber(sql);
    } else if affected > 0 {
      CountedTag(Widen(word), affected);
    } else {
      CommandWordHasNoSpace(sql);
      WordNumber(word);
    }
  }

  /** The scanner of the PG proxy sees the known words where they are, and only there. */
  lemma SameWord(word: bytes)
    ensures CountsRows(Widen(word)) <==> CountsRows(word)
    ensures CountsAffected(Widen(word)) <==> CountsAffected(word)
    ensures Widen(word) == INSERT <==> word == INSERT
    ensures IsDdl(Widen(word)) <==> IsDdl(word)
  {
    hide Widen, CountsRows, CountsAffected, IsDdl;
    if CountsRows(word) || AlwaysCounts(word) {
      CountedWords(word);
    }
    if CountsRows(Widen(word)) || AlwaysCounts(Widen(word)) {
      CountedWords(Widen(word));
      WidenAscii(word);
    }
    if IsDdl(word) {
      DdlIsPlain(word);
      WidenLength(word);
    }
    if IsDdl(Widen(word)) {
      DdlIsPlain(Widen(word));
      WidenAscii(word);
    }
  }

  lemma {:induction false} ReadDigitsOnlyDigits(b: bytes)
    ensures ReadDigits(b).Some? ==> b != [] && forall i :: 0 <= i < |b| ==> 0x30 <= b[i] <= 0x39
  {
    if |b| > 1 {
      ReadDigitsOnlyDigits(b[..|b| - 1]);
    }
  }

  lemma {:induction false} AfterNoSpace(b: bytes)
    requires 0x20 !in b
    ensures AfterLastSpace(b) == b
  {
    if b != [] {
      AfterNoSpace(b[..|b| - 1]);
    }
  }

  lemma {:induction false} WidenAddsNoSpace(b: bytes)
    requires 0x20 !in b
    ensures 0x20 !in Widen(b)
  {
    if b != [] {
      WidenAddsNoSpace(b[1..]);
      assert b[0] in b;
    }
  }

  /** Widening does not make or unmake a number. */
  lemma WidenKeepsNumber(b: bytes)
    ensures ReadDigits(Widen(b)) == ReadDigits(b)
  {
    hide Widen, ReadDigits;
    ReadDigitsOnlyDigits(b);
    ReadDigitsOnlyDigits(Widen(b));
    if IsAscii(b) {
      WidenLength(b);
    } else {
      var i :| 0 <= i < |b| && b[i] >= 128;
      WidenedByteIsHigh(b, i);
    }
  }

  lemma WordNumber(word: bytes)
    requires 0x20 !in word
    ensures TagCount(Widen(word)) == ReadDigits(word)
  {
    hide Widen, ReadDigits, AfterLastSpace;
    WidenAddsNoSpace(word);
    AfterNoSpace(Widen(word));
    WidenKeepsNumber(word);
  }

  lemma CommandWordHasNoSpace(sql: bytes)
    ensures 0x20 !in CommandWord(sql)
  {
    hide CommandWord;
    var _, _ := CommandWordExists(sql);
  }

  lemma {:induction false} WordsHaveNoSpace(sql: bytes, k: nat)
    requires k < |Words(sql)|
    ensures 0x20 !in Words(sql)[k]
    decreases |sql|
  {
    if IsGap(sql[0]) {
      WordsHaveNoSpace(sql[1..], k);
    } else if k > 0 {
      WordsHaveNoSpace(sql[|TakeRun(sql)|..], k - 1);
    } else {
      RunHasNoSpace(sql);
    }
  }

  lemma {:induction false} RunHasNoSpace(sql: bytes)
    ensures 0x20 !in TakeRun(sql)
  {
    if sql != [] && !IsGap(sql[0]) {
      RunHasNoSpace(sql[1..]);
    }
  }

  /** The tag of CREATE, ALTER and DROP shows a number only if the second word is one. */
  lemma DdlTagNumber(sql: bytes)
    requires IsDdl(CommandWord(sql)) && Words(sql) != [] && IsPrefix(CommandWord(sql), Words(sql)[0])
    ensures TagCount(Tag(WidenAll(FirstThree(Words(sql))))) == OwnNumber(sql, 0)
    ensures OwnNumber(sql, 0) == if |Words(sql)| >= 2 && IsDdl(Words(sql)[0]) then ReadDigits(Words(sql)[1]) else None
  {
    hide TagCount, Words, Widen, IsDdl, CommandWord, ReadDigits, CountsRows;
    var words := Words(sql);
    SameWord(words[0]);
    WordsHaveNoSpace(sql, 0);
    DdlIsNotCounted(CommandWord(sql));
    if |words| >= 2 && IsDdl(words[0]) {
      WordsHaveNoSpace(sql, 1);
      WordNumber(words[1]);
      WidenAddsNoSpace(words[1]);
      LastWordNumber(Widen(words[0]), Widen(words[1]));
    } else {
      WordNumber(words[0]);
      DdlIsNoNumber(CommandWord(sql), words[0]);
    }
  }

  lemma DdlIsNotCounted(word: bytes)
    requires IsDdl(word)
    ensures !CountsRows(word)
  {
    hide Ascii;
    Letters();
    DdlLetters();
  }

  lemma DdlIsNoNumber(word: bytes, longer: bytes)
    requires IsDdl(word) && IsPrefix(word, longer)
    ensures ReadDigits(longer) == None
  {
    hide Ascii, ReadDigits;
    ReadDigitsOnlyDigits(longer);
    DdlLetters();
    assert longer[0] == word[0];
  }

  lemma LastWordNumber(head: bytes, word: bytes)
    requires 0x20 !in word
    ensures TagCount(head + [0x20] + word) == TagCount(word)
  {
    hide AfterLastSpace;
    AfterLastSpaceIs(head, word);
    AfterNoSpace(word);
  }

  // ---------- commandTag of the MySQL proxy ----------

  const RECORDS: bytes := Ascii("Records: ")
  const INSERT_ZEROS: bytes := Ascii("  Duplicates: 0  Warnings: 0")
  const AFFECTED: bytes := Ascii("Affected rows: ")
  const MATCHED: bytes := Ascii("  Rows matched: ")
  const CHANGED: bytes := Ascii("  Changed: ")
  const WARNINGS: bytes := Ascii("  Warnings: 0")

  function MySqlTag(sql: bytes, affected: int): bytes {
    var cmd := CommandWord(sql);
    var n := Decimal(affected);
    if cmd == INSERT then RECORDS + n + INSERT_ZEROS
    else if cmd == UPDATE || cmd == DELETE then
      AFFECTED + n + MATCHED + n + CHANGED + n
      + WARNINGS
    else if affected > 0 then AFFECTED + n
    else []
  }

  /** The numbers a reader finds in an info text: one after each colon and space. */
  function InfoNumbers(info: bytes): seq<Option<nat>>
    decreases |info|
  {
    if |info| < 2 then []
    else if info[0] == 0x3A && info[1] == 0x20 then [ReadDigits(LeadingDigits(info[2..]))] + InfoNumbers(info[2..])
    else InfoNumbers(info[1..])
  }

  function LeadingDigits(b: bytes): bytes {
    if b != [] && IsDigit(b[0]) then [b[0]] + LeadingDigits(b[1..]) else []
  }

  predicate IsDigit(b: byte) {
    0x30 <= b <= 0x39
  }

  /** The numbers the info of a statement is to convey: the affected rows, as often as the text
      speaks of them, then the zeros for duplicates and warnings; nothing when no row was
      affected by a statement that does not always report. */
  function InfoOf(word: bytes, affected: nat): seq<Option<nat>> {
    if word == INSERT then [Some(affected), Some(0), Some(0)]
    else if word == UPDATE || word == DELETE then [Some(affected), Some(affected), Some(affected), Some(0)]
    else if affected > 0 then [Some(affected)]
    else []
  }

  /** commandTag of the MySQL proxy: the text, and the numbers a client reads in it. */
  method MySqlCommandTag(sql: bytes, affected: int) returns (tag: bytes)
    ensures tag == MySqlTag(sql, affected)
    ensures affected >= 0 ==> InfoNumbers(tag) == InfoOf(CommandWord(sql), affected)
  {
    var cmd := SqlCommandType(sql);
    var n := Decimal(affected);
    if cmd == INSERT {
      tag := RECORDS + n + INSERT_ZEROS;
    } else if cmd == UPDATE || cmd == DELETE {
      tag := AFFECTED + n + MATCHED + n + CHANGED + n
      + WARNINGS;
    } else if affected > 0 {
      tag := AFFECTED + n;
    } else {
      tag := [];
    }
    if affected >= 0 {
      MySqlTagNumbers(sql, affected);
    }
  }

  /** A client that reads the numbers in the info gets the affected count: wherever the text
      speaks of rows, for every statement that reports. */
  lemma MySqlTagNumbers(sql: bytes, affected: nat)
    ensures InfoNumbers(MySqlTag(sql, affected)) == InfoOf(CommandWord(sql), affected)
  {
    hide CommandWord, InfoNumbers, Decimal, Ascii;
    var cmd := CommandWord(sql);
    InfoEnds();
    if cmd == INSERT {
      InsertNumbers(affected);
    } else if cmd == UPDATE || cmd == DELETE {
      ChangeNumbers(affected);
    } else if affected > 0 {
      AffectedNumber(affected);
    }
  }

  lemma InsertNumbers(n: nat)
    ensures InfoNumbers(RECORDS + Decimal(n) + INSERT_ZEROS) ==
            [Some(n), Some(0), Some(0)]
  {
    hide InfoNumbers, Decimal;
    var zeros := INSERT_ZEROS;
    assert RECORDS == Ascii("Records") + [0x3A, 0x20];
    InsertZeros();
    NumberNext(Ascii("Records"), n, zeros);
    AppendTwo(RECORDS, Decimal(n), zeros);
  }

  lemma ChangeNumbers(n: nat)
    ensures InfoNumbers(AFFECTED + Decimal(n) + MATCHED + Decimal(n)
                        + CHANGED + Decimal(n) + WARNINGS) ==
            [Some(n), Some(n), Some(n), Some(0)]
  {
    hide InfoNumbers, Decimal, Ascii;
    var d, last := Decimal(n), WARNINGS;
    var changed := CHANGED + (d + last);
    var matched := MATCHED + (d + changed);
    ChangeLabels();
    WarningsZero();
    NumberNext(Ascii("  Changed"), n, last);
    NumberNext(Ascii("  Rows matched"), n, changed);
    NumberNext(Ascii("Affected rows"), n, matched);
    AppendSeven(AFFECTED, d, MATCHED, d, CHANGED, d, last);
  }

  /** The headings of the info text: none has a colon of its own. */
  lemma ChangeLabels()
    ensures AFFECTED == Ascii("Affected rows") + [0x3A, 0x20] && 0x3A !in Ascii("Affected rows")
    ensures MATCHED == Ascii("  Rows matched") + [0x3A, 0x20] && 0x3A !in Ascii("  Rows matched")
    ensures CHANGED == Ascii("  Changed") + [0x3A, 0x20] && 0x3A !in Ascii("  Changed")
    ensures MATCHED[0] == 0x20 && CHANGED[0] == 0x20 && WARNINGS[0] == 0x20
  {
  }

  lemma AppendSeven(a: bytes, b: bytes, c: bytes, d: bytes, e: bytes, f: bytes, g: bytes)
    ensures a + b + c + d + e + f + g == a + (b + (c + (d + (e + (f + g)))))
  {
    AppendTwo(a + b + c + d + e, f, g);
    AppendTwo(a + b + c + d, e, f + g);
    AppendTwo(a + b + c, d, e + (f + g));
    AppendTwo(a + b, c, d + (e + (f + g)));
    AppendTwo(a, b, c + (d + (e + (f + g))));
  }

  lemma AffectedNumber(n: nat)
    ensures InfoNumbers(AFFECTED + Decimal(n)) == [Some(n)]
  {
    hide InfoNumbers, Decimal;
    assert AFFECTED == Ascii("Affected rows") + [0x3A, 0x20];
    assert Decimal(n) + [] == Decimal(n);
    InfoEnds();
    NumberNext(Ascii("Affected rows"), n, []);
  }

  lemma InfoEnds()
    ensures InfoNumbers([]) == []
  {
  }

  lemma WarningsZero()
    ensures InfoNumbers(WARNINGS) == [Some(0)]
  {
    hide InfoNumbers;
    InfoEnds();
    assert Decimal(0) == [0x30];
    assert WARNINGS == Ascii("  Warnings") + [0x3A, 0x20] + (Decimal(0) + []);
    NumberNext(Ascii("  Warnings"), 0, []);
  }

  lemma InsertZeros()
    ensures InfoNumbers(INSERT_ZEROS) == [Some(0), Some(0)]
  {
    hide InfoNumbers;
    WarningsZero();
    assert Decimal(0) == [0x30];
    assert INSERT_ZEROS ==
      Ascii("  Duplicates") + [0x3A, 0x20] + (Decimal(0) + WARNINGS);
    NumberNext(Ascii("  Duplicates"), 0, WARNINGS);
  }

  /** A label, a colon and a space, a number: the reader gets the number and goes on after it. */
  lemma NumberNext(heading: bytes, n: nat, rest: bytes)
    requires 0x3A !in heading && (rest == [] || !IsDigit(rest[0]))
    ensures InfoNumbers(heading + [0x3A, 0x20] + (Decimal(n) + rest)) == [Some(n)] + InfoNumbers(rest)
  {
    hide InfoNumbers, LeadingDigits, ReadDigits;
    var digits := Decimal(n);
    ReadDigitsOfDigits(n);
    DecimalIsDigits(n);
    assert digits == Digits(n);
    hide Decimal, Digits, IsDigit;
    LeadingDigitsAre(digits, rest);
    ColonRead(digits + rest);
    NoColon(heading, [0x3A, 0x20] + (digits + rest));
    NoColon(digits, rest);
    assert heading + [0x3A, 0x20] + (digits + rest) == heading + ([0x3A, 0x20] + (digits + rest));
  }

  lemma ColonRead(b: bytes)
    ensures InfoNumbers([0x3A, 0x20] + b) == [ReadDigits(LeadingDigits(b))] + InfoNumbers(b)
  {
    hide ReadDigits, LeadingDigits;
    assert ([0x3A, 0x20] + b)[2..] == b;
  }

  lemma {:induction false} NoColon(a: bytes, rest: bytes)
    requires 0x3A !in a
    ensures InfoNumbers(a + rest) == InfoNumbers(rest)
  {
    if a == [] {
      assert a + rest == rest;
    } else {
      assert (a + rest)[1..] == a[1..] + rest && (a + rest)[0] == a[0];
      NoColon(a[1..], rest);
      if |a + rest| < 2 {
        assert rest == [];
      }
    }
  }

  lemma {:induction false} LeadingDigitsAre(digits: bytes, rest: bytes)
    requires (forall i :: 0 <= i < |digits| ==> IsDigit(digits[i])) && (rest == [] || !IsDigit(rest[0]))
    ensures LeadingDigits(digits + rest) == digits
  {
    if digits == [] {
      assert digits + rest == rest;
    } else {
      assert (digits + rest)[1..] == digits[1..] + rest;
      LeadingDigitsAre(digits[1..], rest);
    }
  }

  lemma DecimalIsDigits(n: nat)
    ensures forall i :: 0 <= i < |Decimal(n)| ==> IsDigit(Decimal(n)[i])
    ensures 0x3A !in Decimal(n)
  {
    assert Decimal(n) == Digits(n);
    forall i | 0 <= i < |Decimal(n)| ensures IsDigit(Decimal(n)[i]) {
      assert Decimal(n)[i] in Digits(n);
    }
  }

  lemma MySqlTagIsShort(sql: bytes, affected: int64)
    ensures |MySqlTag(sql, affected)| < 251
  {
    DecimalLength(affected);
  }
}

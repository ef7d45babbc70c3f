/** What a PostgreSQL client reads in a command tag, word by word, for every way a statement can
    be written. */
module PgTags {
  import opened ByteStrings
  import opened SqlText

  // ---------- the words of a tag ----------

  /** The pieces of a tag between its spaces. */
  function Pieces(tag: bytes): (r: seq<bytes>)
    ensures r != []
  {
    if tag == [] then [[]]
    else
      var more := Pieces(tag[1..]);
      if tag[0] == 0x20 then [[]] + more else [[tag[0]] + more[0]] + more[1..]
  }

  lemma {:induction false} FirstPiece(word: bytes, rest: bytes)
    requires 0x20 !in word
    ensures Pieces(word + [0x20] + rest) == [word] + Pieces(rest)
  {
    var tag := word + [0x20] + rest;
    if word == [] {
      assert tag[1..] == rest;
    } else {
      assert tag[0] == word[0] && tag[1..] == word[1..] + [0x20] + rest;
      FirstPiece(word[1..], rest);
      assert [word[0]] + word[1..] == word;
    }
  }

  lemma {:induction false} OnePiece(word: bytes)
    requires 0x20 !in word
    ensures Pieces(word) == [word]
  {
    if word != [] {
      OnePiece(word[1..]);
      assert [word[0]] + word[1..] == word;
    }
  }

  lemma TwoPieces(word: bytes, other: bytes)
    requires 0x20 !in word && 0x20 !in other
    ensures Pieces(word + [0x20] + other) == [word, other]
  {
    hide Pieces;
    FirstPiece(word, other);
    OnePiece(other);
  }

  /** A text of code points below 256, read as UTF-8: the number of each. */
  function ReadUtf8(b: bytes): Option<bytes> {
    if b == [] then Some([])
    else if b[0] < 0x80 then
      var more :- ReadUtf8(b[1..]);
      Some([b[0]] + more)
    else if |b| >= 2 && 0xC2 <= b[0] <= 0xC3 && 0x80 <= b[1] < 0xC0 then
      var more :- ReadUtf8(b[2..]);
      Some([64 * (b[0] - 0xC0) + (b[1] - 0x80)] + more)
    else None
  }

  /** Widening is UTF-8: each byte of the statement is read as the code point of that number. */
  lemma {:induction false} WidenIsUtf8(b: bytes)
    ensures ReadUtf8(Widen(b)) == Some(b)
  {
    if b != [] {
      WidenIsUtf8(b[1..]);
      var head, more := Rune(b[0]), Widen(b[1..]);
      var all := head + more;
      assert Widen(b) == all && [b[0]] + b[1..] == b;
      if b[0] < 128 {
        assert all[1..] == more;
      } else {
        assert all[2..] == more && all[0] == 0xC0 + b[0] / 64 && all[1] == 0x80 + b[0] % 64;
      }
    }
  }

  // ---------- statements ----------

  /** A statement cut into white space, a first word, and a rest that is empty or starts with
      white space, '(' or ';'. */
  predicate IsCut(space: bytes, word: bytes, rest: bytes) {
    && (forall b <- space :: b in {0x20, 0x09, 0x0A, 0x0D})
    && (forall b <- word :: b !in {0x20, 0x09, 0x0A, 0x0D, 0x28, 0x3B})
    && (rest != [] ==> rest[0] in {0x20, 0x09, 0x0A, 0x0D, 0x28, 0x3B})
    && (word == [] && rest != [] ==> rest[0] in {0x28, 0x3B})
  }

  /** In every such cut the word is the command word of the scanners. */
  lemma CutWord(space: bytes, word: bytes, rest: bytes)
    requires IsCut(space, word, rest)
    ensures CommandWord(space + word + rest) == word
  {
    hide CommandWord;
    assert forall i :: 0 <= i < |space| ==> space[i] in space;
    assert forall i :: 0 <= i < |word| ==> word[i] in word;
    CommandWordIs(space, word, rest);
  }

  /** And every statement has one. */
  lemma CutExists(sql: bytes) returns (space: bytes, rest: bytes)
    ensures IsCut(space, CommandWord(sql), rest) && sql == space + CommandWord(sql) + rest
  {
    hide CommandWord;
    space, rest := CommandWordExists(sql);
  }

  predicate ShowsRows(word: bytes) {
    || word == Ascii("SELECT") || word == Ascii("SHOW") || word == Ascii("EXPLAIN") || word == Ascii("DESCRIBE")
  }

  predicate ShowsCount(word: bytes) {
    || word == Ascii("UPDATE") || word == Ascii("DELETE") || word == Ascii("MOVE") || word == Ascii("FETCH")
    || word == Ascii("COPY")
  }

  predicate Defines(word: bytes) {
    word == Ascii("CREATE") || word == Ascii("ALTER") || word == Ascii("DROP")
  }

  /** The tag of every statement that does not start with CREATE, ALTER or DROP: INSERT, a zero and
      the count; the command word and the number of rows for four words, and the count for five; for
      all others the command word, and the count if it is positive. The word is that of the
      statement, in UTF-8. */
  lemma TagIs(space: bytes, word: bytes, rest: bytes, numRows: nat, affected: int)
    requires IsCut(space, word, rest) && !Defines(word)
    ensures var pieces := Pieces(PgTag(space + word + rest, numRows, affected));
            && pieces == (if word == Ascii("INSERT") then [word, [0x30], Decimal(affected)]
                          else if ShowsRows(word) then [word, Decimal(numRows)]
                          else if ShowsCount(word) then [word, Decimal(affected)]
                          else if affected > 0 then [Widen(word), Decimal(affected)]
                          else [Widen(word)])
            && ReadUtf8(pieces[0]) == Some(word)
  {
    hide Widen, Pieces, Decimal, CommandWord, Words, Tag, WidenAll, FirstThree, Ascii, ReadUtf8;
    CutWord(space, word, rest);
    SameWord(word);
    assert 0x20 !in word;
    WidenAddsNoSpace(word);
    WidenIsUtf8(word);
    NumbersHaveNoSpace(numRows);
    NumbersHaveNoSpace(affected);
    if CountsRows(word) || AlwaysCounts(word) {
      CountedWords(word);
    }
    if word == INSERT {
      InsertTag(affected);
    } else if CountsRows(word) {
      TwoPieces(Widen(word), Decimal(numRows));
    } else if CountsAffected(word) || affected > 0 {
      TwoPieces(Widen(word), Decimal(affected));
    } else {
      OnePiece(Widen(word));
    }
  }

  lemma InsertTag(affected: int)
    ensures Pieces(Ascii("INSERT 0 ") + Decimal(affected)) == [Ascii("INSERT"), [0x30], Decimal(affected)]
  {
    hide Pieces, Decimal;
    var n := Decimal(affected);
    NumbersHaveNoSpace(affected);
    assert Ascii("INSERT 0 ") + n == Ascii("INSERT") + [0x20] + ([0x30] + [0x20] + n);
    assert 0x20 !in Ascii("INSERT");
    FirstPiece(Ascii("INSERT"), [0x30] + [0x20] + n);
    FirstPiece([0x30], n);
    OnePiece(n);
  }

  lemma NumbersHaveNoSpace(n: int)
    ensures 0x20 !in Decimal(n)
  {
    if n >= 0 {
      assert 0x20 !in Digits(n);
    } else {
      assert 0x20 !in Digits(-n);
    }
  }

  /** The first two words of a statement between blanks and ';', however they are separated. */
  predicate IsSplit(space: bytes, first: bytes, gap: bytes, second: bytes, rest: bytes) {
    && (forall b <- space :: b in {0x20, 0x09, 0x0A, 0x0D})
    && first != [] && (forall b <- first :: b !in {0x20, 0x09, 0x0A, 0x0D, 0x3B})
    && (forall b <- gap :: b in {0x20, 0x09, 0x0A, 0x0D, 0x3B})
    && (forall b <- second :: b !in {0x20, 0x09, 0x0A, 0x0D, 0x3B})
    && (if second == [] then rest == [] else gap != [])
    && (rest != [] ==> rest[0] in {0x20, 0x09, 0x0A, 0x0D, 0x3B})
  }

  lemma SplitWords(space: bytes, first: bytes, gap: bytes, second: bytes, rest: bytes)
    requires IsSplit(space, first, gap, second, rest)
    ensures var words := Words(space + (first + (gap + (second + rest))));
            && |words| >= 1 && words[0] == first
            && (second == [] ==> |words| == 1) && (second != [] ==> |words| >= 2 && words[1] == second)
  {
    hide Words;
    assert forall b: bytes, i :: 0 <= i < |b| ==> b[i] in b;
    WordsSkipGap(space, first + (gap + (second + rest)));
    if gap == [] {
      assert gap + (second + rest) == [];
    } else {
      assert (gap + (second + rest))[0] == gap[0];
    }
    WordsTakeWord(first, gap + (second + rest));
    WordsSkipGap(gap, second + rest);
    if second == [] {
      assert second + rest == [];
      NoWords();
    } else {
      WordsTakeWord(second, rest);
    }
  }

  lemma NoWords()
    ensures Words([]) == []
  {
  }

  /** The tag of a statement that starts with CREATE, ALTER or DROP: that word and the next, if the
      first is followed by a blank or ';' and there is a next; otherwise all up to the first blank. */
  lemma DefiningTagIs(space: bytes, first: bytes, gap: bytes, second: bytes, rest: bytes, numRows: nat, affected: int)
    requires IsSplit(space, first, gap, second, rest)
    requires Defines(CommandWord(space + (first + (gap + (second + rest)))))
    ensures var tag := PgTag(space + (first + (gap + (second + rest))), numRows, affected);
            tag == if Defines(first) && second != [] then first + [0x20] + Widen(second) else Widen(first)
  {
    hide Widen, CommandWord, Words, Ascii, Decimal;
    var sql := space + (first + (gap + (second + rest)));
    SplitWords(space, first, gap, second, rest);
    var word := CommandWord(sql);
    SameWord(word);
    SameWord(first);
    DefinersAreNotCounted(word);
    DdlHasFirstWord(sql);
    if IsDdl(first) {
      DdlIsPlain(first);
      WidenLength(first);
    }
  }

  /** Every statement with such a command word can be split that way. */
  lemma SplitExists(sql: bytes) returns (space: bytes, first: bytes, gap: bytes, second: bytes, rest: bytes)
    requires Defines(CommandWord(sql))
    ensures IsSplit(space, first, gap, second, rest) && sql == space + (first + (gap + (second + rest)))
  {
    hide CommandWord, TakeRun;
    var left;
    space, left := CutExists(sql);
    assert CommandWord(sql) != [] && CommandWord(sql)[0] != 0x3B;
    left := CommandWord(sql) + left;
    assert sql == space + left && !IsGap(left[0]);
    first, rest := RunExists(left);
    gap, left := GapExists(rest);
    second, rest := RunExists(left);
  }

  lemma {:induction false} RunExists(sql: bytes) returns (run: bytes, rest: bytes)
    ensures sql == run + rest && (forall b <- run :: b !in {0x20, 0x09, 0x0A, 0x0D, 0x3B})
    ensures rest != [] ==> rest[0] in {0x20, 0x09, 0x0A, 0x0D, 0x3B}
    ensures run == [] ==> sql == [] || sql[0] in {0x20, 0x09, 0x0A, 0x0D, 0x3B}
  {
    if sql == [] || IsGap(sql[0]) {
      run, rest := [], sql;
    } else {
      run, rest := RunExists(sql[1..]);
      run := [sql[0]] + run;
    }
  }

  lemma {:induction false} GapExists(sql: bytes) returns (gap: bytes, rest: bytes)
    ensures sql == gap + rest && (forall b <- gap :: b in {0x20, 0x09, 0x0A, 0x0D, 0x3B})
    ensures rest != [] ==> rest[0] !in {0x20, 0x09, 0x0A, 0x0D, 0x3B}
    ensures gap == [] ==> sql == rest
  {
    if sql == [] || !IsGap(sql[0]) {
      gap, rest := [], sql;
    } else {
      gap, rest := GapExists(sql[1..]);
      gap := [sql[0]] + gap;
    }
  }

  lemma DefinersAreNotCounted(word: bytes)
    requires IsDdl(word)
    ensures !CountsRows(word) && !CountsAffected(word) && word != INSERT
  {
    hide Ascii;
    Letters();
    CountedLetters();
    DdlLetters();
  }
}

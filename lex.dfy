/**
 * The lexer of src/lex/lex.c: a state machine over a C string with a
 * one-character pushback cursor and a bounded token buffer. Each call of
 * LexToken runs the states until one emits a token or the machine halts at
 * the terminating NUL.
 */
module Lex {
  import opened Common
  import opened Tokens

  /** The size of the lexer's token buffer. */
  const TOKEN_STR_SIZE: nat := 2048
  /** append_char / append_cstr require the token length to stay below this. */
  const TOKEN_LIMIT: nat := 2047
  const END_OF_STRING: string := "End of string"

  /** The state function pointer; Halted is the NULL state. */
  datatype State = InStart | InSpace | InNumber | InIdentifier | Halted

  datatype LexError = TokenTooLong | ReadPastEnd | TokenFailed(cause: TokenError)

  /** One token as the state machine produces it, and where the cursor ends. */
  datatype Lexed = Lexed(kind: TokenType, text: string, next: nat, halted: bool)

  /** A C string: a single NUL, at the end. */
  predicate CString(s: seq<char>)
  {
    |s| >= 1 && s[|s| - 1] == NUL && NUL !in s[..|s| - 1]
  }

  // ---------------------------------------------------------------------
  // The reference definition of one token

  /** Index of the first white-space character at or after `i`, or |s|. */
  function SpaceEnd(s: string, i: nat): (k: nat)
    requires i <= |s|
    ensures i <= k <= |s|
    ensures k < |s| ==> IsSpace(s[k])
    decreases |s| - i
  {
    if i < |s| && !IsSpace(s[i]) then SpaceEnd(s, i + 1) else i
  }

  /** The token lex_identifier emits for a word, decided by strcmp. */
  function WordKind(w: string): (k: TokenType)
    ensures k == Let <==> w == "let"
    ensures k == Operator <==> w == "+"
    ensures k in {Let, Operator, Identifier}
  {
    if w == "let" then Let else if w == "+" then Operator else Identifier
  }

  predicate IsPunct(c: char)
  {
    c == '(' || c == ')' || c == ';'
  }

  /**
   * The token that starts at the non-blank position `i`: a digit run, a
   * parenthesis or semicolon (whose texts are "(", "(" and ";"), the end of
   * the string, or else a word running up to and including the next white
   * space. A text reaching TOKEN_LIMIT characters, or a word that runs
   * through the NUL, is an error.
   */
  function ScanAt(s: string, i: nat): (r: Result<Lexed, LexError>)
    requires CString(s) && i < |s| && !IsSpace(s[i])
    ensures r.Ok? ==> i < r.value.next <= |s|
    ensures r.Ok? ==> |r.value.text| < TOKEN_LIMIT && NUL !in r.value.text
    ensures r.Ok? ==> (r.value.halted <==> r.value.kind == Eof)
    ensures r.Ok? && r.value.halted ==> r.value.next == |s|
    ensures r.Ok? && !r.value.halted ==> r.value.next < |s|
  {
    var c := s[i];
    if IsDigit(c) then NumberScan(s, i)
    else if c == '(' then Ok(Lexed(LParen, "(", i + 1, false))
    else if c == ')' then Ok(Lexed(RParen, "(", i + 1, false))
    else if c == ';' then Ok(Lexed(Semicolon, ";", i + 1, false))
    else if c == NUL then
      assert i == |s| - 1 by { InnerNotNul(s); }
      Ok(Lexed(Eof, END_OF_STRING, i + 1, true))
    else WordScan(s, i)
  }

  /** A digit run from `i`: a NUMBER token, unless it reaches TOKEN_LIMIT characters. */
  function NumberScan(s: string, i: nat): (r: Result<Lexed, LexError>)
    requires CString(s) && i < |s| && IsDigit(s[i])
    ensures r.Ok? ==> i < r.value.next < |s| && r.value.kind == Number && !r.value.halted
    ensures r.Ok? ==> |r.value.text| < TOKEN_LIMIT && NUL !in r.value.text
  {
    var j := DigitEnd(s, i);
    if j - i >= TOKEN_LIMIT then Err(TokenTooLong)
    else
      assert NUL !in s[i..j] by {
        DigitRun(s, i);
        forall m | i <= m < j ensures s[m] != NUL { assert IsDigit(s[i..j][m - i]); }
      }
      assert j < |s| by { assert s[|s| - 1] == NUL; }
      Ok(Lexed(Number, s[i..j], j, false))
  }

  /**
   * A word from `i` up to the next white space, which is consumed too:
   * an error when it reaches TOKEN_LIMIT characters or runs through the NUL.
   */
  function WordScan(s: string, i: nat): (r: Result<Lexed, LexError>)
    requires CString(s) && i < |s| && !IsSpace(s[i])
    ensures r.Ok? ==> i < r.value.next < |s| && r.value.kind != Eof && !r.value.halted
    ensures r.Ok? ==> |r.value.text| < TOKEN_LIMIT && NUL !in r.value.text
  {
    var k := SpaceEnd(s, i);
    if k - i >= TOKEN_LIMIT then Err(TokenTooLong)
    else if k == |s| then Err(ReadPastEnd)
    else
      assert NUL !in s[i..k] by {
        forall m | i <= m < k ensures s[m] != NUL { assert s[..|s| - 1][m] == s[m]; }
      }
      assert k + 1 < |s| by { NulNotSpace(); }
      Ok(Lexed(WordKind(s[i..k]), s[i..k], k + 1, false))
  }

  /** The first token at or after `pos`: white space is skipped first. */
  function Scan(s: string, pos: nat): (r: Result<Lexed, LexError>)
    requires CString(s) && pos < |s|
    ensures r.Ok? ==> pos < r.value.next <= |s|
  {
    NulNotSpace();
    SkippedSpaces(s, pos);
    ScanAt(s, SkipSpaces(s, pos))
  }

  lemma InnerNotNul(s: string)
    requires CString(s)
    ensures forall j :: 0 <= j < |s| - 1 ==> s[j] != NUL
  {
    forall j | 0 <= j < |s| - 1
      ensures s[j] != NUL
    {
      assert s[..|s| - 1][j] == s[j];
    }
  }

  lemma NulNotSpace()
    ensures !IsSpace(NUL) && !IsDigit(NUL)
  {
  }

  // ---------------------------------------------------------------------
  // The state machine

  class Lexer {
    var input: seq<char>
    var pos: nat
    var state: State
    var tokenLen: nat
    var tokenType: TokenType
    var emitted: bool
    const tokenStr: array<char>

    ghost predicate Valid()
      reads this, tokenStr
    {
      ValidIn(state)
    }

    /** The lexer invariant, for the state `st` the machine is in or is about to enter. */
    ghost predicate ValidIn(st: State)
      reads this, tokenStr
    {
      && tokenStr.Length == TOKEN_STR_SIZE
      && tokenLen < TOKEN_LIMIT
      && CString(input)
      && pos <= |input|
      && (st != Halted ==> pos < |input|)
      && (st == Halted ==> tokenStr[0] == END_OF_STRING[0])
    }

    /** Between two tokens: back in the start (or halted) state with an empty buffer. */
    ghost predicate Between()
      reads this
    {
      (state == InStart || state == Halted) && tokenLen == 0 && !emitted
    }

    /** lexer_make: everything zero, the start state, no input yet. */
    constructor Make()
      ensures state == InStart && tokenLen == 0 && !emitted && tokenType == Start
      ensures input == [] && pos == 0
      ensures tokenStr.Length == TOKEN_STR_SIZE && fresh(tokenStr)
      ensures forall k :: 0 <= k < TOKEN_STR_SIZE ==> tokenStr[k] == NUL
    {
      input := [];
      pos := 0;
      state := InStart;
      tokenLen := 0;
      tokenType := Start;
      emitted := false;
      tokenStr := new char[TOKEN_STR_SIZE](_ => NUL);
    }

    /** lexer_init: point the cursor at the start of `s` and restart. */
    method Init(s: seq<char>)
      requires CString(s) && tokenStr.Length == TOKEN_STR_SIZE
      modifies this
      ensures Valid() && Between() && state == InStart
      ensures input == s && pos == 0
      ensures tokenType == old(tokenType)
    {
      state := InStart;
      tokenLen := 0;
      emitted := false;
      input := s;
      pos := 0;
    }

    /** next: the character under the cursor, which then advances. */
    method Next() returns (c: char)
      requires pos < |input|
      modifies this`pos
      ensures c == input[old(pos)] && pos == old(pos) + 1
    {
      c := input[pos];
      pos := pos + 1;
    }

    /** backup: one character back. */
    method Backup()
      requires pos >= 1
      modifies this`pos
      ensures pos == old(pos) - 1
    {
      pos := pos - 1;
    }

    /** append_char: store `c`; false when the length reaches TOKEN_LIMIT. */
    method AppendChar(c: char) returns (ok: bool)
      requires tokenStr.Length == TOKEN_STR_SIZE && tokenLen < TOKEN_LIMIT
      modifies this`tokenLen, tokenStr
      ensures tokenLen == old(tokenLen) + 1
      ensures tokenStr[..tokenLen] == old(tokenStr[..tokenLen]) + [c]
      ensures tokenStr[old(tokenLen)] == c
      ensures forall j :: 0 <= j < old(tokenLen) ==> tokenStr[j] == old(tokenStr[j])
      ensures ok <==> tokenLen < TOKEN_LIMIT
    {
      tokenStr[tokenLen] := c;
      tokenLen := tokenLen + 1;
      ok := tokenLen < TOKEN_LIMIT;
    }

    /** append_cstr: store `str` when it fits below TOKEN_LIMIT. */
    method AppendCstr(str: string) returns (ok: bool)
      requires tokenStr.Length == TOKEN_STR_SIZE && tokenLen < TOKEN_LIMIT
      modifies this`tokenLen, tokenStr
      ensures ok <==> old(tokenLen) + |str| < TOKEN_LIMIT
      ensures ok ==> tokenLen == old(tokenLen) + |str|
      ensures ok ==> tokenStr[..tokenLen] == old(tokenStr[..tokenLen]) + str
      ensures ok ==> forall k :: tokenLen <= k < TOKEN_STR_SIZE ==> tokenStr[k] == old(tokenStr[k])
    {
      if tokenLen + |str| >= TOKEN_LIMIT {
        return false;
      }
      forall k | 0 <= k < |str| {
        tokenStr[tokenLen + k] := str[k];
      }
      tokenLen := tokenLen + |str|;
      return true;
    }

    /** emit_token: record the type, NUL-terminate the text, mark it emitted. */
    method EmitToken(t: TokenType)
      requires tokenStr.Length == TOKEN_STR_SIZE && tokenLen < TOKEN_STR_SIZE
      modifies this`tokenType, this`emitted, tokenStr
      ensures tokenType == t && emitted
      ensures tokenStr[..tokenLen] == old(tokenStr[..tokenLen]) && tokenStr[tokenLen] == NUL
    {
      tokenType := t;
      tokenStr[tokenLen] := NUL;
      emitted := true;
    }

    /** cleanup_token_cache: empty the buffer and clear the emitted flag. */
    method CleanupTokenCache()
      modifies this`tokenLen, this`emitted
      ensures tokenLen == 0 && !emitted
    {
      tokenLen := 0;
      emitted := false;
    }

    /** lex_space: skip a maximal run of white space, then back to start. */
    method LexSpace() returns (next: State)
      requires Valid() && state == InSpace && IsSpace(input[pos])
      modifies this`pos
      ensures ValidIn(next) && next == InStart
      ensures pos == SkipSpaces(input, old(pos)) && pos > old(pos)
    {
      NulNotSpace();
      var c := Next();
      while IsSpace(c)
        invariant old(pos) < pos < |input| || (IsSpace(c) ==> pos < |input|)
        invariant old(pos) < pos <= |input| && c == input[pos - 1]
        invariant SkipSpaces(input, old(pos)) == SkipSpaces(input, pos - 1)
        decreases |input| - pos
      {
        assert input[|input| - 1] == NUL;
        c := Next();
      }
      Backup();
      next := InStart;
    }

    /** lex_number: a maximal digit run becomes a NUMBER token. */
    method LexNumber() returns (r: Result<State, LexError>)
      requires Valid() && state == InNumber && tokenLen == 0 && IsDigit(input[pos])
      modifies this`pos, this`tokenLen, this`tokenType, this`emitted, tokenStr
      ensures r.Ok? ==> ValidIn(r.value)
      ensures r == (match NumberScan(input, old(pos))
                    case Ok(_) => Ok(InStart)
                    case Err(e) => Err(e))
      ensures r.Ok? ==> emitted && tokenType == NumberScan(input, old(pos)).value.kind
      ensures r.Ok? ==> tokenStr[..tokenLen] == NumberScan(input, old(pos)).value.text
      ensures r.Ok? ==> tokenStr[tokenLen] == NUL && pos == NumberScan(input, old(pos)).value.next
    {
      ghost var p0 := pos;
      var ok := ReadDigits();
      if !ok {
        return Err(TokenTooLong);
      }
      EmitToken(Number);
      return Ok(InStart);
    }

    /** The loop of lex_number: append digits until a non-digit, which is pushed back. */
    method ReadDigits() returns (ok: bool)
      requires ValidIn(InNumber) && tokenLen == 0 && IsDigit(input[pos])
      modifies this`pos, this`tokenLen, tokenStr
      ensures ok <==> NumberScan(input, old(pos)).Ok?
      ensures ok ==> ValidIn(InStart) && pos == NumberScan(input, old(pos)).value.next
      ensures ok ==> tokenStr[..tokenLen] == NumberScan(input, old(pos)).value.text
    {
      ghost var p0 := pos;
      ok := CopyDigits();
      if ok {
        NumberFound(input, p0, pos);
      } else {
        NumberTooLong(input, p0);
      }
    }

    /** The character loop of ReadDigits, stated against DigitEnd. */
    method CopyDigits() returns (ok: bool)
      requires ValidIn(InNumber) && tokenLen == 0 && IsDigit(input[pos])
      modifies this`pos, this`tokenLen, tokenStr
      ensures ok <==> DigitEnd(input, old(pos)) - old(pos) < TOKEN_LIMIT
      ensures ok ==> ValidIn(InStart) && pos == DigitEnd(input, old(pos))
      ensures ok ==> tokenStr[..tokenLen] == input[old(pos)..pos]
    {
      NulNotSpace();
      ghost var p0 := pos;
      ghost var s := input;
      ghost var k := DigitEnd(s, p0);
      var c := Next();
      while IsDigit(c)
        invariant input == s && p0 < pos <= |s| && c == s[pos - 1]
        invariant tokenLen == pos - 1 - p0 && tokenLen < TOKEN_LIMIT
        invariant forall j :: 0 <= j < tokenLen ==> tokenStr[j] == s[p0 + j]
        invariant k == DigitEnd(s, pos - 1)
        decreases |s| - pos
      {
        assert s[|s| - 1] == NUL;
        ok := AppendChar(c);
        if !ok {
          DigitEndBeyond(s, pos - 1);
          return false;
        }
        c := Next();
      }
      Backup();
      assert tokenStr[..tokenLen] == s[p0..pos];
      return true;
    }

    /**
     * lex_identifier: every character up to the next white space becomes
     * the word; that white space is consumed too, with no pushback.
     */
    method LexIdentifier() returns (r: Result<State, LexError>)
      requires Valid() && state == InIdentifier && tokenLen == 0
      requires !IsSpace(input[pos]) && !IsDigit(input[pos]) && !IsPunct(input[pos]) && input[pos] != NUL
      modifies this`pos, this`tokenLen, this`tokenType, this`emitted, tokenStr
      ensures r.Ok? ==> ValidIn(r.value)
      ensures r == (match WordScan(input, old(pos))
                    case Ok(_) => Ok(InStart)
                    case Err(e) => Err(e))
      ensures r.Ok? ==> emitted && tokenType == WordScan(input, old(pos)).value.kind
      ensures r.Ok? ==> tokenStr[..tokenLen] == WordScan(input, old(pos)).value.text
      ensures r.Ok? ==> tokenStr[tokenLen] == NUL && pos == WordScan(input, old(pos)).value.next
    {
      var read := ReadWord();
      if read.Err? {
        return Err(read.error);
      }
      tokenStr[tokenLen] := NUL;
      var word := tokenStr[..tokenLen];
      if word == "let" {
        EmitToken(Let);
      } else if word == "+" {
        EmitToken(Operator);
      } else {
        EmitToken(Identifier);
      }
      return Ok(InStart);
    }

    /**
     * The loop of lex_identifier: append characters up to the next white
     * space, which is consumed; a word reaching TOKEN_LIMIT characters, or
     * one that runs through the NUL, is an error.
     */
    method ReadWord() returns (r: Result<(), LexError>)
      requires ValidIn(InIdentifier) && tokenLen == 0 && !IsSpace(input[pos])
      modifies this`pos, this`tokenLen, tokenStr
      ensures r.Err? <==> WordScan(input, old(pos)).Err?
      ensures r.Err? ==> r.error == WordScan(input, old(pos)).error
      ensures r.Ok? ==> ValidIn(InStart) && pos == WordScan(input, old(pos)).value.next
      ensures r.Ok? ==> tokenStr[..tokenLen] == WordScan(input, old(pos)).value.text
    {
      ghost var p0 := pos;
      r := CopyWord();
      if r.Ok? {
        WordFound(input, p0, pos - 1);
      } else if r.error == TokenTooLong {
        WordTooLong(input, p0);
      } else {
        WordPastEnd(input, p0);
      }
    }

    /** The character loop of ReadWord, stated against SpaceEnd. */
    method CopyWord() returns (r: Result<(), LexError>)
      requires ValidIn(InIdentifier) && tokenLen == 0 && !IsSpace(input[pos])
      modifies this`pos, this`tokenLen, tokenStr
      ensures r.Err? ==> r.error == TokenTooLong || r.error == ReadPastEnd
      ensures r == Err(TokenTooLong) <==> SpaceEnd(input, old(pos)) - old(pos) >= TOKEN_LIMIT
      ensures r == Err(ReadPastEnd) ==> SpaceEnd(input, old(pos)) == |input|
      ensures r.Ok? ==> ValidIn(InStart) && pos == SpaceEnd(input, old(pos)) + 1 && pos < |input|
      ensures r.Ok? ==> tokenStr[..tokenLen] == input[old(pos)..pos - 1]
    {
      NulNotSpace();
      ghost var p0 := pos;
      ghost var s := input;
      ghost var k := SpaceEnd(s, p0);
      var c := Next();
      while !IsSpace(c)
        invariant input == s && p0 < pos <= |s| && c == s[pos - 1]
        invariant tokenLen == pos - 1 - p0 && tokenLen < TOKEN_LIMIT
        invariant forall j :: 0 <= j < tokenLen ==> tokenStr[j] == s[p0 + j]
        invariant k == SpaceEnd(s, pos - 1)
        decreases |s| - pos
      {
        var ok := AppendChar(c);
        if !ok {
          SpaceEndBeyond(s, pos - 1);
          return Err(TokenTooLong);
        }
        if pos == |input| {
          SpaceEndBeyond(s, pos - 1);
          return Err(ReadPastEnd);
        }
        c := Next();
      }
      assert pos < |s| by { assert s[|s| - 1] == NUL; }
      assert tokenStr[..tokenLen] == s[p0..pos - 1];
      return Ok(());
    }

    /**
     * lex_start: dispatch on the next character. White space, digits and
     * words are pushed back for their own states; parentheses, semicolon
     * and the NUL emit at once.
     */
    method LexStart() returns (r: Result<State, LexError>)
      requires Valid() && state == InStart && tokenLen == 0 && !emitted
      modifies this`pos, this`tokenLen, this`tokenType, this`emitted, tokenStr
      ensures r.Ok? && ValidIn(r.value)
      ensures IsSpace(old(input[pos])) ==> r.value == InSpace && pos == old(pos) && !emitted
      ensures IsDigit(old(input[pos])) ==> r.value == InNumber && pos == old(pos) && !emitted
      ensures (!IsSpace(old(input[pos])) && !IsDigit(old(input[pos])) && !IsPunct(old(input[pos]))
        && old(input[pos]) != NUL) ==> r.value == InIdentifier && pos == old(pos) && !emitted
      ensures !IsSpace(old(input[pos])) && (IsPunct(old(input[pos])) || old(input[pos]) == NUL) ==>
        emitted && ScanAt(input, old(pos)).Ok?
        && ScanAt(input, old(pos)).value == Lexed(tokenType, tokenStr[..tokenLen], pos, r.value == Halted)
        && tokenStr[tokenLen] == NUL
      ensures !emitted ==> tokenLen == 0
      ensures emitted ==> r.value == InStart || r.value == Halted
    {
      NulNotSpace();
      var c := Next();
      if IsSpace(c) {
        Backup();
        return Ok(InSpace);
      } else if IsDigit(c) {
        Backup();
        return Ok(InNumber);
      } else if c == '(' {
        var _ := AppendChar('(');
        EmitToken(LParen);
        return Ok(InStart);
      } else if c == ')' {
        var _ := AppendChar('(');
        EmitToken(RParen);
        return Ok(InStart);
      } else if c == ';' {
        var _ := AppendChar(';');
        EmitToken(Semicolon);
        return Ok(InStart);
      } else if c == NUL {
        var _ := AppendCstr(END_OF_STRING);
        EmitToken(Eof);
        assert pos == |input| by { InnerNotNul(input); }
        assert tokenStr[..tokenLen] == END_OF_STRING;
        assert tokenStr[0] == tokenStr[..tokenLen][0];
        return Ok(Halted);
      } else {
        Backup();
        return Ok(InIdentifier);
      }
    }

    /**
     * lex_token: run the states until a token is emitted or the machine
     * halts, hand the buffer to token_make, then empty the buffer. Once
     * halted, the buffer still starts with "End of string" while its
     * length is 0, so token_make's validity check fails.
     */
    method LexToken(prev: Token?, allocOk: bool) returns (r: Result<Token, LexError>)
      requires Valid() && Between()
      requires prev != null ==> prev.value.Length == MAX_SIZE && prev.value != tokenStr
      modifies this, tokenStr, if prev != null then {prev, prev.value} else {}
      ensures input == old(input)
      ensures old(state) == Halted ==>
        r == Err(TokenFailed(if prev == null && !allocOk then OutOfMemory else InvalidToken))
      ensures old(state) == InStart && Scan(input, old(pos)).Err? ==> r == Err(Scan(input, old(pos)).error)
      ensures old(state) == InStart && Scan(input, old(pos)).Ok? ==>
        var lx := Scan(input, old(pos)).value;
        && Valid() && Between()
        && pos == lx.next && (state == Halted <==> lx.halted)
        && (r.Ok? <==> prev != null || allocOk)
        && (r.Err? ==> r == Err(TokenFailed(OutOfMemory)))
        && (r.Ok? ==> r.value.Valid() && r.value.ttype == lx.kind && r.value.Text() == lx.text)
    {
      var run := RunStates();
      if run.Err? {
        return Err(run.error);
      }
      ghost var text := tokenStr[..tokenLen];
      assert tokenStr[..][..tokenLen] == text;
      assert state == Halted ==> tokenStr[..][0] != NUL;
      ghost var wasStart := old(state) == InStart;
      assert wasStart ==> NUL !in text && tokenStr[..][tokenLen] == NUL;
      assert wasStart ==> CStringOfLength(tokenStr[..], tokenLen);
      var t := TokenMake(tokenType, tokenStr[..], tokenLen, prev, allocOk);
      assert wasStart ==> t != Err(InvalidToken);
      CleanupTokenCache();
      match t {
        case Ok(tok) => r := Ok(tok);
        case Err(e) =>
          assert e == OutOfMemory || e == InvalidToken;
          r := Err(TokenFailed(e));
      }
    }

    /**
     * The state loop of lex_token: from the start state it ends with the
     * token Scan reads emitted into the buffer, or with Scan's error; a
     * halted machine stays halted with an empty buffer.
     */
    method RunStates() returns (r: Result<(), LexError>)
      requires Valid() && Between()
      modifies this`pos, this`state, this`tokenLen, this`tokenType, this`emitted, tokenStr
      ensures old(state) == Halted ==> r.Ok? && Valid() && state == Halted && tokenLen == 0
      ensures old(state) == InStart ==> (r.Err? <==> Scan(input, old(pos)).Err?)
      ensures old(state) == InStart && r.Err? ==> r.error == Scan(input, old(pos)).error
      ensures old(state) == InStart && r.Ok? ==> Valid() && Done(old(pos))
    {
      if state == Halted {
        return Ok(());
      }
      ghost var p0 := pos;
      ghost var k := SkipSpaces(input, pos);
      while state != Halted && !emitted
        invariant Valid() && input == old(input) && p0 < |input|
        invariant !emitted ==> Pending(p0, k)
        invariant emitted ==> Done(p0)
        decreases Rank()
      {
        var step := Step(p0, k);
        if step.Err? {
          return Err(step.error);
        }
      }
      return Ok(());
    }

    /** The termination measure of the state loop: input left, counted twice, and the start state. */
    function Rank(): nat
      requires pos <= |input|
      reads this
    {
      2 * (|input| - pos) + (if state == InStart then 1 else 0)
    }

    /**
     * The state loop has read from `p0` no token yet: the buffer is empty
     * and the cursor stands in the white space before `k`, or, in the
     * number and word states, at `k` itself.
     */
    ghost predicate Pending(p0: nat, k: nat)
      reads this, tokenStr
    {
      && ValidIn(state) && !emitted && tokenLen == 0 && state != Halted
      && p0 <= pos <= k && SkipSpaces(input, pos) == k && SkipSpaces(input, p0) == k
      && (state == InSpace ==> IsSpace(input[pos]))
      && (state == InNumber || state == InIdentifier ==>
            pos == k && !IsSpace(input[pos]) && (state == InNumber <==> IsDigit(input[pos]))
            && (state == InIdentifier ==> !IsPunct(input[pos]) && input[pos] != NUL))
    }

    /** The state loop has emitted the token Scan reads at `p0`. */
    ghost predicate Done(p0: nat)
      reads this, tokenStr
    {
      && ValidIn(state) && p0 < |input| && emitted && (state == InStart || state == Halted)
      && Scan(input, p0) == Ok(Lexed(tokenType, tokenStr[..tokenLen], pos, state == Halted))
      && tokenStr[tokenLen] == NUL
    }

    /**
     * What one run of a state function leaves behind: Scan's error, or a
     * smaller rank with the token still pending or emitted.
     */
    ghost predicate Stepped(p0: nat, k: nat, r: Result<(), LexError>, rank0: nat)
      reads this, tokenStr
    {
      && CString(input) && p0 < |input|
      && (r.Err? ==> Scan(input, p0) == Err(r.error))
      && (r.Ok? ==> pos <= |input| && Rank() < rank0)
      && (r.Ok? && !emitted ==> Pending(p0, k))
      && (r.Ok? && emitted ==> Done(p0))
    }

    /** One state function of the loop, with the state it returns installed. */
    method Step(ghost p0: nat, ghost k: nat) returns (r: Result<(), LexError>)
      requires Pending(p0, k) && p0 < |input|
      modifies this`pos, this`state, this`tokenLen, this`tokenType, this`emitted, tokenStr
      ensures input == old(input) && Stepped(p0, k, r, old(Rank()))
    {
      match state {
        case InStart => r := StartStep(p0, k);
        case InSpace => r := SpaceStep(p0, k);
        case InNumber => r := NumberStep(p0, k);
        case InIdentifier => r := IdentifierStep(p0, k);
      }
    }

    method StartStep(ghost p0: nat, ghost k: nat) returns (r: Result<(), LexError>)
      requires Pending(p0, k) && p0 < |input| && state == InStart
      modifies this`pos, this`state, this`tokenLen, this`tokenType, this`emitted, tokenStr
      ensures input == old(input) && Stepped(p0, k, r, old(Rank()))
    {
      NulNotSpace();
      SkippedSpaces(input, p0);
      assert Scan(input, p0) == ScanAt(input, k);
      ghost var before := pos;
      var step := LexStart();
      if step.value == InStart || step.value == Halted {
        assert SkipSpaces(input, before) == before;
      }
      state := step.value;
      return Ok(());
    }

    method SpaceStep(ghost p0: nat, ghost k: nat) returns (r: Result<(), LexError>)
      requires Pending(p0, k) && p0 < |input| && state == InSpace
      modifies this`pos, this`state, this`tokenLen, this`tokenType, this`emitted, tokenStr
      ensures input == old(input) && Stepped(p0, k, r, old(Rank()))
    {
      state := LexSpace();
      return Ok(());
    }

    method NumberStep(ghost p0: nat, ghost k: nat) returns (r: Result<(), LexError>)
      requires Pending(p0, k) && p0 < |input| && state == InNumber
      modifies this`pos, this`state, this`tokenLen, this`tokenType, this`emitted, tokenStr
      ensures input == old(input) && Stepped(p0, k, r, old(Rank()))
    {
      NulNotSpace();
      SkippedSpaces(input, p0);
      assert Scan(input, p0) == NumberScan(input, k);
      var step := LexNumber();
      if step.Err? {
        return Err(step.error);
      }
      state := step.value;
      return Ok(());
    }

    method IdentifierStep(ghost p0: nat, ghost k: nat) returns (r: Result<(), LexError>)
      requires Pending(p0, k) && p0 < |input| && state == InIdentifier
      modifies this`pos, this`state, this`tokenLen, this`tokenType, this`emitted, tokenStr
      ensures input == old(input) && Stepped(p0, k, r, old(Rank()))
    {
      NulNotSpace();
      SkippedSpaces(input, p0);
      assert Scan(input, p0) == WordScan(input, k);
      var step := LexIdentifier();
      if step.Err? {
        return Err(step.error);
      }
      state := step.value;
      return Ok(());
    }
  }

  lemma DigitEndBeyond(s: string, i: nat)
    requires i < |s| && IsDigit(s[i])
    ensures DigitEnd(s, i) > i
  {
  }

  lemma NumberTooLong(s: string, i: nat)
    requires CString(s) && i < |s| && IsDigit(s[i]) && DigitEnd(s, i) - i >= TOKEN_LIMIT
    ensures NumberScan(s, i) == Err(TokenTooLong)
  {
  }

  lemma NumberFound(s: string, i: nat, j: nat)
    requires CString(s) && i < |s| && IsDigit(s[i]) && DigitEnd(s, i) == j && j - i < TOKEN_LIMIT
    ensures NumberScan(s, i) == Ok(Lexed(Number, s[i..j], j, false))
  {
  }

  lemma WordTooLong(s: string, i: nat)
    requires CString(s) && i < |s| && !IsSpace(s[i]) && SpaceEnd(s, i) - i >= TOKEN_LIMIT
    ensures WordScan(s, i) == Err(TokenTooLong)
  {
  }

  lemma WordPastEnd(s: string, i: nat)
    requires CString(s) && i < |s| && !IsSpace(s[i])
    requires SpaceEnd(s, i) - i < TOKEN_LIMIT && SpaceEnd(s, i) == |s|
    ensures WordScan(s, i) == Err(ReadPastEnd)
  {
  }

  lemma WordFound(s: string, i: nat, k: nat)
    requires CString(s) && i < |s| && !IsSpace(s[i])
    requires SpaceEnd(s, i) == k && k - i < TOKEN_LIMIT && k < |s|
    ensures WordScan(s, i) == Ok(Lexed(WordKind(s[i..k]), s[i..k], k + 1, false))
  {
  }

  lemma SpaceEndBeyond(s: string, i: nat)
    requires i < |s| && !IsSpace(s[i])
    ensures SpaceEnd(s, i) > i
  {
  }

  // ---------------------------------------------------------------------
  // Whole inputs

  /**
   * Repeated lex_token calls from `pos` until the machine halts: the tokens
   * in order, the last one Eof, or the first error.
   */
  function LexAll(s: string, pos: nat): (r: Result<seq<Lexed>, LexError>)
    requires CString(s) && pos < |s|
    ensures r.Ok? ==> |r.value| >= 1 && r.value[|r.value| - 1].kind == Eof
    ensures r.Ok? ==> forall j :: 0 <= j < |r.value| - 1 ==> r.value[j].kind != Eof
    decreases |s| - pos
  {
    match Scan(s, pos)
    case Err(e) => Err(e)
    case Ok(lx) =>
      if lx.halted then Ok([lx])
      else
        match LexAll(s, lx.next)
        case Err(e) => Err(e)
        case Ok(rest) => Ok([lx] + rest)
  }

  /** The texts of a token sequence, in order. */
  function TextsOf(ls: seq<Lexed>): seq<string>
  {
    if ls == [] then [] else [ls[0].text] + TextsOf(ls[1..])
  }

  /** The kinds of a token sequence, in order. */
  function KindsOf(ls: seq<Lexed>): seq<TokenType>
  {
    if ls == [] then [] else [ls[0].kind] + KindsOf(ls[1..])
  }

  /** Each word followed by one blank, as a source text. */
  function Terminated(words: seq<string>): string
  {
    if words == [] then "" else words[0] + " " + Terminated(words[1..])
  }

  /**
   * A word lex_identifier reads back whole: it starts with neither a digit,
   * a parenthesis, a semicolon nor NUL, holds no white space or NUL, and
   * fits the token buffer.
   */
  predicate PlainWord(w: string)
  {
    && 1 <= |w| < TOKEN_LIMIT
    && !IsDigit(w[0]) && !IsPunct(w[0])
    && forall j :: 0 <= j < |w| ==> !IsSpace(w[j]) && w[j] != NUL
  }

  lemma {:induction false} SpaceEndAt(s: string, i: nat, k: nat)
    requires i <= k < |s| && IsSpace(s[k])
    requires forall j :: i <= j < k ==> !IsSpace(s[j])
    ensures SpaceEnd(s, i) == k
    decreases k - i
  {
    if i < k {
      SpaceEndAt(s, i + 1, k);
    }
  }

  /** One plain word followed by a blank scans as that word. */
  lemma ScanWord(s: string, pos: nat, w: string)
    requires CString(s) && PlainWord(w) && pos + |w| < |s|
    requires s[pos..pos + |w|] == w && s[pos + |w|] == ' '
    ensures Scan(s, pos) == Ok(Lexed(WordKind(w), w, pos + |w| + 1, false))
  {
    NulNotSpace();
    var k := pos + |w|;
    assert s[pos] == w[0];
    forall j | pos <= j < k ensures !IsSpace(s[j]) {
      assert s[j] == w[j - pos];
    }
    SpaceEndAt(s, pos, k);
  }

  /** The end of the string scans as the final Eof token. */
  lemma ScanEnd(s: string, pos: nat)
    requires CString(s) && pos < |s| && s[pos] == NUL
    ensures LexAll(s, pos) == Ok([Lexed(Eof, END_OF_STRING, |s|, true)])
  {
    NulNotSpace();
    InnerNotNul(s);
  }

  /** The kinds WordKind gives a sequence of words. */
  function WordKinds(words: seq<string>): seq<TokenType>
  {
    if words == [] then [] else [WordKind(words[0])] + WordKinds(words[1..])
  }

  lemma LexAllCons(s: string, pos: nat, lx: Lexed)
    requires CString(s) && pos < |s| && Scan(s, pos) == Ok(lx) && !lx.halted
    requires LexAll(s, lx.next).Ok?
    ensures LexAll(s, pos) == Ok([lx] + LexAll(s, lx.next).value)
  {
  }

  /** The text after the first terminated word is the rest of the words. */
  lemma TerminatedSplit(s: string, pos: nat, words: seq<string>)
    requires pos <= |s| && |words| >= 1
    requires s[pos..] == Terminated(words) + [NUL]
    ensures pos + |words[0]| < |s|
    ensures s[pos..pos + |words[0]|] == words[0] && s[pos + |words[0]|] == ' '
    ensures s[pos + |words[0]| + 1..] == Terminated(words[1..]) + [NUL]
  {
    var w := words[0];
    assert s[pos..] == w + " " + (Terminated(words[1..]) + [NUL]);
    assert s[pos..pos + |w|] == s[pos..][..|w|];
    assert s[pos + |w|] == s[pos..][|w|];
    assert s[pos + |w| + 1..] == s[pos..][|w| + 1..];
  }

  /**
   * Lexing blank-terminated plain words yields exactly those words, each
   * classified by WordKind, and then the end of the string.
   */
  lemma {:induction false} LexWords(s: string, pos: nat, words: seq<string>)
    requires CString(s) && pos < |s|
    requires s[pos..] == Terminated(words) + [NUL]
    requires forall j :: 0 <= j < |words| ==> PlainWord(words[j])
    ensures LexAll(s, pos).Ok?
    ensures TextsOf(LexAll(s, pos).value) == words + [END_OF_STRING]
    ensures KindsOf(LexAll(s, pos).value) == WordKinds(words) + [Eof]
    decreases |words|
  {
    if words == [] {
      assert s[pos] == s[pos..][0];
      ScanEnd(s, pos);
      assert TextsOf([Lexed(Eof, END_OF_STRING, |s|, true)]) == [END_OF_STRING];
      assert KindsOf([Lexed(Eof, END_OF_STRING, |s|, true)]) == [Eof];
    } else {
      var w := words[0];
      TerminatedSplit(s, pos, words);
      assert PlainWord(w);
      var next := pos + |w| + 1;
      LexWords(s, next, words[1..]);
      LexWordStep(s, pos, words, next);
    }
  }

  /** The first word in front of an input that lexes to the other words and then Eof. */
  lemma LexWordStep(s: string, pos: nat, words: seq<string>, next: nat)
    requires CString(s) && |words| >= 1 && PlainWord(words[0])
    requires next == pos + |words[0]| + 1 < |s|
    requires s[pos..pos + |words[0]|] == words[0] && s[pos + |words[0]|] == ' '
    requires LexAll(s, next).Ok?
    requires TextsOf(LexAll(s, next).value) == words[1..] + [END_OF_STRING]
    requires KindsOf(LexAll(s, next).value) == WordKinds(words[1..]) + [Eof]
    ensures LexAll(s, pos).Ok?
    ensures TextsOf(LexAll(s, pos).value) == words + [END_OF_STRING]
    ensures KindsOf(LexAll(s, pos).value) == WordKinds(words) + [Eof]
  {
    var w := words[0];
    ScanWord(s, pos, w);
    var lx := Lexed(WordKind(w), w, next, false);
    LexAllCons(s, pos, lx);
    ConsWord(lx, LexAll(s, next).value, words);
  }

  /** Texts and kinds of a word token in front of the tokens of the other words. */
  lemma ConsWord(lx: Lexed, rest: seq<Lexed>, words: seq<string>)
    requires |words| >= 1 && lx.text == words[0] && lx.kind == WordKind(words[0])
    requires TextsOf(rest) == words[1..] + [END_OF_STRING]
    requires KindsOf(rest) == WordKinds(words[1..]) + [Eof]
    ensures TextsOf([lx] + rest) == words + [END_OF_STRING]
    ensures KindsOf([lx] + rest) == WordKinds(words) + [Eof]
  {
    assert ([lx] + rest)[1..] == rest;
    assert words == [words[0]] + words[1..];
  }

  /** The closing-parenthesis token carries the text "(", as written. */
  lemma RParenText()
    ensures Scan(") \0", 0) == Ok(Lexed(RParen, "(", 1, false))
  {
    NulNotSpace();
  }

  /** A word that runs into the terminating NUL is read past the end. */
  lemma WordAtEnd()
    ensures LexAll("let x\0", 0) == Err(ReadPastEnd)
  {
    NulNotSpace();
    var s := "let x\0";
    assert s[..|s| - 1] == "let x";
    SpaceEndAt(s, 0, 3);
    assert s[0..3] == "let";
    assert SpaceEnd(s, 4) == |s|;
  }
}

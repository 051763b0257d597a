/**
 * The token record of src/token/token.c: a type, a size and a fixed buffer
 * of MAX_SIZE characters holding the text as a NUL-terminated C string.
 */
module Tokens {
  import opened Common

  /** The buffer size of a token (MAX_SIZE). */
  const MAX_SIZE: nat := 2048
  const NUL: char := '\0'

  datatype TokenType =
    | Start | Eof | Number | LParen | RParen | Semicolon | Operator
    | Identifier | Let | Assignment | Func | LCBrace | RCBrace | Comma

  datatype TokenError = OutOfMemory | InvalidToken

  /** `buf` holds a C string of length `n`: a NUL at `n` and none before. */
  predicate CStringOfLength(buf: seq<char>, n: nat)
  {
    n < |buf| && buf[n] == NUL && NUL !in buf[..n]
  }

  class Token {
    var ttype: TokenType
    var size: nat
    const value: array<char>

    /** assert_valid_token: strlen(value) == size. */
    ghost predicate Valid()
      reads this, value
    {
      value.Length == MAX_SIZE && CStringOfLength(value[..], size)
    }

    /** The text the token holds. */
    function Text(): (t: string)
      requires Valid()
      reads this, value
      ensures |t| == size && NUL !in t
    {
      value[..size]
    }

    /** Fresh token storage; its contents are undetermined. */
    constructor Alloc()
      ensures value.Length == MAX_SIZE && fresh(value)
    {
      value := new char[MAX_SIZE];
    }
  }

  /**
   * alloc_token: reuse `prev` when there is one, otherwise allocate (which
   * fails when `allocOk` is false); the text is reset to the empty string.
   */
  method AllocToken(prev: Token?, allocOk: bool) returns (t: Token?)
    requires prev != null ==> prev.value.Length == MAX_SIZE
    modifies if prev != null then {prev, prev.value} else {}
    ensures prev != null ==> t == prev
    ensures prev == null ==> (t == null <==> !allocOk)
    ensures prev == null && t != null ==> fresh(t) && fresh(t.value)
    ensures t != null ==> t.Valid() && t.size == 0 && t.Text() == ""
    ensures prev != null ==> t.ttype == old(prev.ttype)
  {
    if prev != null {
      t := prev;
    } else if allocOk {
      t := new Token.Alloc();
    } else {
      return null;
    }
    t.value[0] := NUL;
    t.size := 0;
  }

  /**
   * token_make: the first slen + 1 characters of `s` are copied into the
   * token. The copy is a valid token exactly when it is a C string of
   * length slen; otherwise the validity assertion fails (InvalidToken).
   */
  method TokenMake(ttype: TokenType, s: seq<char>, slen: nat, prev: Token?, allocOk: bool)
    returns (r: Result<Token, TokenError>)
    requires slen < MAX_SIZE && slen < |s|
    requires prev != null ==> prev.value.Length == MAX_SIZE
    modifies if prev != null then {prev, prev.value} else {}
    ensures prev == null && !allocOk <==> r == Err(OutOfMemory)
    ensures r == Err(InvalidToken) <==> (prev != null || allocOk) && !CStringOfLength(s, slen)
    ensures r.Ok? ==> r.value.Valid() && r.value.ttype == ttype && r.value.Text() == s[..slen]
    ensures r.Ok? ==> r.value == prev || (prev == null && fresh(r.value))
  {
    var t := AllocToken(prev, allocOk);
    if t == null {
      return Err(OutOfMemory);
    }
    t.ttype := ttype;
    t.size := slen;
    forall k | 0 <= k <= slen {
      t.value[k] := s[k];
    }
    assert t.value[..slen + 1] == s[..slen + 1];
    assert t.value[..slen] == s[..slen];
    if !CStringOfLength(t.value[..], slen) {
      return Err(InvalidToken);
    }
    return Ok(t);
  }

  /** get_type: the stored type of a valid token. */
  method GetType(t: Token) returns (ty: TokenType)
    requires t.Valid()
    ensures ty == t.ttype
  {
    ty := t.ttype;
  }

  /** get_value: the stored text of a valid token, which holds no NUL. */
  method GetValue(t: Token) returns (v: string)
    requires t.Valid()
    ensures v == t.Text() && |v| == t.size && NUL !in v
  {
    v := t.value[..t.size];
  }
}
